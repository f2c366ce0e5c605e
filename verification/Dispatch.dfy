// Multicore thread dispatch and semaphores as a transition system.
//
// One step is one atomic action of one core: a queue operation under its lock, an atomic counter operation, a lock
// taken or released, or the context switch. Steps of different cores interleave freely.

module Dispatch {
  import opened Options

  datatype Status = RUNNING | READY | WAITING | FINISHING | FINISHED

  datatype Rank = IDLE | NORMAL

  // Where a thread is. This is bookkeeping for the statements below: no step's guard or result depends on it.
  // `list` is the wait list that the thread is already on while a core is still on its stack.
  datatype Owner =
    | OnCore(c: nat, list: Option<nat>)
    | Leaving(c: nat, list: Option<nat>)
    | InQueue(c: nat)
    | InList(k: nat)
    | Carried(c: nat)
    | Gone

  // `saved` says that the thread's context is complete in memory, so that a core may load it.
  datatype Thread = Thread(cpu: nat, rank: Rank, status: Status, saved: bool, owner: Owner)

  // Why a core asks the scheduler for the next thread.
  datatype Why = Start | Yield | Sleep(k: nat) | Exit

  // How far a core is in the kernel's code.
  datatype Phase =
    | Booting
    | Running
    | Building(t: nat, boot: bool)   // constructor: counted, not yet inserted
    | PLocked(k: nat)                // p: lock taken
    | PSleeping(k: nat)              // p: decremented below zero
    | Enlisted(k: nat)               // sleep: on the wait list
    | PUnlocking(k: nat)
    | VLocked(k: nat)                // v: lock taken
    | VWaking(k: nat)                // v: incremented from below zero
    | VHolding(k: nat, t: nat)       // wakeup: taken off the wait list
    | VUnlocking(k: nat)
    | Seeking(why: Why)              // the NORMAL queue was empty
    | Picked(prev: nat, lock: Option<nat>)   // head replaced, still on the previous thread's stack
    | Marked(prev: nat)              // dispatch: previous and lock stored
    | Switched                       // on the head's stack, epilogue pending
    | Retiring                       // epilogue: counter decremented

  // `queued` and `taken` record the threads ever put on and taken off the NORMAL queue.
  datatype Core = Core(
    head: nat, phase: Phase, previous: Option<nat>, spin: Option<nat>,
    normal: seq<nat>, idle: seq<nat>, queued: seq<nat>, taken: seq<nat>)

  // `ps` and `vs` count the decrements and increments; `enlisted` and `woken` record the waiters.
  datatype Semaphore = Semaphore(
    value: int, waiting: seq<nat>, lock: Option<nat>,
    initial: nat, ps: nat, vs: nat, enlisted: seq<nat>, woken: seq<nat>)

  datatype State = State(cores: seq<Core>, sems: seq<Semaphore>, threads: map<nat, Thread>, count: int)

  // ---- Steps ----

  datatype Action =
    | Create(c: nat, t: nat, cpu: nat, rank: Rank)
    | Publish(c: nat)
    | TakeNormal(c: nat, why: Why)
    | FindNone(c: nat, why: Why)
    | TakeIdle(c: nat)
    | Mark(c: nat)
    | Switch(c: nat)
    | Epilogue(c: nat)
    | Retire(c: nat)
    | PAcquire(c: nat, k: nat)
    | PDecrement(c: nat)
    | PEnlist(c: nat)
    | PRelease(c: nat)
    | VAcquire(c: nat, k: nat)
    | VIncrement(c: nat)
    | VWake(c: nat)
    | VPublish(c: nat)
    | VRelease(c: nat)

  // Whether the core runs on behalf of a thread.
  predicate HasHead(core: Core) {
    !core.phase.Booting? && core.phase != Seeking(Start) && !(core.phase.Building? && core.phase.boot)
  }

  // The semaphore the core is busy with, if any.
  function Target(phase: Phase): Option<nat> {
    match phase
    case PLocked(k) => Some(k)
    case PSleeping(k) => Some(k)
    case Enlisted(k) => Some(k)
    case PUnlocking(k) => Some(k)
    case VLocked(k) => Some(k)
    case VWaking(k) => Some(k)
    case VHolding(k, _) => Some(k)
    case VUnlocking(k) => Some(k)
    case Seeking(Sleep(k)) => Some(k)
    case _ => None
  }

  // The thread whose stack a switching core leaves, and the lock it left that thread with.
  function Left(core: Core): Option<nat> {
    match core.phase
    case Picked(prev, _) => Some(prev)
    case Marked(prev) => Some(prev)
    case Switched => core.previous
    case Retiring => core.previous
    case _ => None
  }

  function LeftLock(core: Core): Option<nat> {
    match core.phase
    case Picked(_, lock) => lock
    case Marked(_) => core.spin
    case Switched => core.spin
    case _ => None
  }

  // No dangling reference: what a core's code is about to use exists.
  predicate CoreRefs(s: State, core: Core) {
    && (HasHead(core) ==> core.head in s.threads)
    && (Target(core.phase).Some? ==> Target(core.phase).value < |s.sems|)
    && (core.phase.Switched? || core.phase.Retiring? ==> core.previous.Some?)
    && (Left(core).Some? ==> Left(core).value in s.threads)
    && (LeftLock(core).Some? ==> LeftLock(core).value < |s.sems|)
    && (core.phase.Building? || core.phase.VHolding? ==> core.phase.t in s.threads)
  }

  predicate QueueRefs(s: State, q: seq<nat>) {
    forall i :: 0 <= i < |q| ==> q[i] in s.threads
  }

  predicate Refs(s: State) {
    && (forall c :: 0 <= c < |s.cores| ==> CoreRefs(s, s.cores[c]))
    && (forall c :: 0 <= c < |s.cores| ==> QueueRefs(s, s.cores[c].normal) && QueueRefs(s, s.cores[c].idle))
    && (forall k :: 0 <= k < |s.sems| ==> QueueRefs(s, s.sems[k].waiting))
    && (forall t :: t in s.threads ==> s.threads[t].cpu < |s.cores|)
  }

  // Idle threads neither sleep nor exit.
  predicate MayAsk(s: State, c: nat, why: Why)
    requires c < |s.cores| && CoreRefs(s, s.cores[c])
  {
    var core := s.cores[c];
    match why
    case Start => core.phase == Booting
    case Yield => core.phase == Running
    case Exit => core.phase == Running && s.threads[core.head].rank == NORMAL
    case Sleep(k) => core.phase == Enlisted(k)
  }

  predicate Enabled(s: State, a: Action)
    requires Refs(s)
  {
    a.c < |s.cores| &&
    var core := s.cores[a.c];
    match a
    case Create(c, t, cpu, rank) =>
      (core.phase == Booting || core.phase == Running) && t !in s.threads && cpu < |s.cores|
    case Publish(c) => core.phase.Building?
    case TakeNormal(c, why) => MayAsk(s, c, why) && core.normal != []
    case FindNone(c, why) => MayAsk(s, c, why) && core.normal == [] && why != Yield
    case TakeIdle(c) => core.phase.Seeking? && core.phase.why != Yield && core.idle != []
    case Mark(c) => core.phase.Picked?
    case Switch(c) => core.phase.Marked?
    case Epilogue(c) => core.phase == Switched
    case Retire(c) => core.phase == Retiring
    case PAcquire(c, k) => core.phase == Running && k < |s.sems| && s.sems[k].lock == None
                           && s.threads[core.head].rank == NORMAL
    case PDecrement(c) => core.phase.PLocked?
    case PEnlist(c) => core.phase.PSleeping?
    case PRelease(c) => core.phase.PUnlocking?
    case VAcquire(c, k) => core.phase == Running && k < |s.sems| && s.sems[k].lock == None
    case VIncrement(c) => core.phase.VLocked?
    case VWake(c) => core.phase.VWaking? && s.sems[core.phase.k].waiting != []
    case VPublish(c) => core.phase.VHolding?
    case VRelease(c) => core.phase.VUnlocking?
  }

  // ---- Their effects ----

  function SetCore(s: State, c: nat, core: Core): State
    requires c < |s.cores|
  {
    s.(cores := s.cores[c := core])
  }

  function SetSem(s: State, k: nat, sem: Semaphore): State
    requires k < |s.sems|
  {
    s.(sems := s.sems[k := sem])
  }

  function SetThread(s: State, t: nat, thread: Thread): State {
    s.(threads := s.threads[t := thread])
  }

  function SetPhase(s: State, c: nat, phase: Phase): State
    requires c < |s.cores|
  {
    SetCore(s, c, s.cores[c].(phase := phase))
  }

  // Scheduler::insert: at the tail of the queue of the thread's core and rank.
  function Insert(s: State, t: nat): State
    requires t in s.threads && s.threads[t].cpu < |s.cores|
  {
    var th := s.threads[t];
    var core := s.cores[th.cpu];
    var core' := if th.rank == NORMAL then core.(normal := core.normal + [t], queued := core.queued + [t])
                 else core.(idle := core.idle + [t]);
    SetThread(SetCore(s, th.cpu, core'), t, th.(owner := InQueue(th.cpu)))
  }

  // The status the caller stores before it switches away.
  function LeavingStatus(why: Why): Status {
    match why
    case Sleep(_) => WAITING
    case Exit => FINISHING
    case _ => READY
  }

  // The queue has been popped: the scheduler's head is replaced, and the caller's status stored.
  function Replace(s: State, c: nat, why: Why, next: nat): State
    requires c < |s.cores| && next in s.threads && (why != Start ==> s.cores[c].head in s.threads)
  {
    var core := s.cores[c];
    if why == Start then
      SetThread(SetCore(s, c, core.(head := next, phase := Running)), next,
                s.threads[next].(owner := OnCore(c, None), saved := false))
    else
      var lock := if why.Sleep? then Some(why.k) else None;
      var left := s.threads[core.head].(status := LeavingStatus(why), owner := Leaving(c, lock));
      var s1 := SetThread(SetCore(s, c, core.(head := next, phase := Picked(core.head, lock))), core.head, left);
      SetThread(s1, next, s.threads[next].(owner := OnCore(c, None)))
  }

  function DoCreate(s: State, c: nat, t: nat, cpu: nat, rank: Rank): State
    requires c < |s.cores|
  {
    SetPhase(SetThread(s, t, Thread(cpu, rank, READY, true, Carried(c))), c,
             Building(t, s.cores[c].phase.Booting?)).(count := s.count + 1)
  }

  function DoPublish(s: State, c: nat): State
    requires c < |s.cores| && CoreRefs(s, s.cores[c]) && s.cores[c].phase.Building?
    requires s.threads[s.cores[c].phase.t].cpu < |s.cores|
  {
    var core := s.cores[c];
    Insert(SetPhase(s, c, if core.phase.boot then Booting else Running), core.phase.t)
  }

  function DoTakeNormal(s: State, c: nat, why: Why): State
    requires c < |s.cores| && CoreRefs(s, s.cores[c]) && MayAsk(s, c, why)
    requires QueueRefs(s, s.cores[c].normal) && s.cores[c].normal != []
  {
    var core := s.cores[c];
    var next := core.normal[0];
    Replace(SetCore(s, c, core.(normal := core.normal[1..], taken := core.taken + [next])), c, why, next)
  }

  function DoTakeIdle(s: State, c: nat): State
    requires c < |s.cores| && CoreRefs(s, s.cores[c]) && s.cores[c].phase.Seeking?
    requires QueueRefs(s, s.cores[c].idle) && s.cores[c].idle != []
  {
    var core := s.cores[c];
    Replace(SetCore(s, c, core.(idle := core.idle[1..])), c, core.phase.why, core.idle[0])
  }

  function DoMark(s: State, c: nat): State
    requires c < |s.cores| && CoreRefs(s, s.cores[c]) && s.cores[c].phase.Picked?
  {
    var core := s.cores[c];
    SetThread(SetCore(s, c, core.(previous := Some(core.phase.prev), spin := core.phase.lock,
                                  phase := Marked(core.phase.prev))),
              core.head, s.threads[core.head].(status := RUNNING))
  }

  // The previous thread's context is saved and the head's is loaded.
  function DoSwitch(s: State, c: nat): State
    requires c < |s.cores| && CoreRefs(s, s.cores[c]) && s.cores[c].phase.Marked?
  {
    var core := s.cores[c];
    var s1 := SetThread(SetPhase(s, c, Switched), core.phase.prev, s.threads[core.phase.prev].(saved := true));
    SetThread(s1, core.head, s1.threads[core.head].(saved := false))
  }

  function DoEpilogue(s: State, c: nat): State
    requires c < |s.cores| && CoreRefs(s, s.cores[c]) && s.cores[c].phase == Switched
    requires s.threads[s.cores[c].previous.value].cpu < |s.cores|
  {
    var core := s.cores[c];
    var p := core.previous.value;
    var th := s.threads[p];
    match th.status
    case READY => Insert(SetPhase(s, c, Running), p)
    case WAITING =>
      if core.spin.None? then SetPhase(s, c, Running) else
        var k := core.spin.value;
        SetThread(SetSem(SetPhase(s, c, Running), k, s.sems[k].(lock := None)), p, th.(owner := InList(k)))
    case FINISHING => SetPhase(s, c, Retiring).(count := s.count - 1)
    case _ => SetPhase(s, c, Running)
  }

  function DoRetire(s: State, c: nat): State
    requires c < |s.cores| && CoreRefs(s, s.cores[c]) && s.cores[c].phase == Retiring
  {
    var p := s.cores[c].previous.value;
    SetThread(SetPhase(s, c, Running), p, s.threads[p].(status := FINISHED, owner := Gone))
  }

  function DoAcquire(s: State, c: nat, k: nat, phase: Phase): State
    requires c < |s.cores| && k < |s.sems|
  {
    SetSem(SetPhase(s, c, phase), k, s.sems[k].(lock := Some(c)))
  }

  function DoRelease(s: State, c: nat, k: nat): State
    requires c < |s.cores| && k < |s.sems|
  {
    SetSem(SetPhase(s, c, Running), k, s.sems[k].(lock := None))
  }

  function DoPDecrement(s: State, c: nat): State
    requires c < |s.cores| && CoreRefs(s, s.cores[c]) && s.cores[c].phase.PLocked?
  {
    var k := s.cores[c].phase.k;
    var sem := s.sems[k];
    SetSem(SetPhase(s, c, if sem.value < 1 then PSleeping(k) else PUnlocking(k)), k,
           sem.(value := sem.value - 1, ps := sem.ps + 1))
  }

  function DoPEnlist(s: State, c: nat): State
    requires c < |s.cores| && CoreRefs(s, s.cores[c]) && s.cores[c].phase.PSleeping?
  {
    var k := s.cores[c].phase.k;
    var sem := s.sems[k];
    var t := s.cores[c].head;
    SetThread(SetSem(SetPhase(s, c, Enlisted(k)), k,
                     sem.(waiting := sem.waiting + [t], enlisted := sem.enlisted + [t])),
              t, s.threads[t].(owner := OnCore(c, Some(k))))
  }

  function DoVIncrement(s: State, c: nat): State
    requires c < |s.cores| && CoreRefs(s, s.cores[c]) && s.cores[c].phase.VLocked?
  {
    var k := s.cores[c].phase.k;
    var sem := s.sems[k];
    SetSem(SetPhase(s, c, if sem.value < 0 then VWaking(k) else VUnlocking(k)), k,
           sem.(value := sem.value + 1, vs := sem.vs + 1))
  }

  function DoVWake(s: State, c: nat): State
    requires c < |s.cores| && CoreRefs(s, s.cores[c]) && s.cores[c].phase.VWaking?
    requires QueueRefs(s, s.sems[s.cores[c].phase.k].waiting) && s.sems[s.cores[c].phase.k].waiting != []
  {
    var k := s.cores[c].phase.k;
    var sem := s.sems[k];
    var t := sem.waiting[0];
    SetThread(SetSem(SetPhase(s, c, VHolding(k, t)), k,
                     sem.(waiting := sem.waiting[1..], woken := sem.woken + [t])),
              t, s.threads[t].(status := READY, owner := Carried(c)))
  }

  function DoVPublish(s: State, c: nat): State
    requires c < |s.cores| && CoreRefs(s, s.cores[c]) && s.cores[c].phase.VHolding?
    requires s.threads[s.cores[c].phase.t].cpu < |s.cores|
  {
    var core := s.cores[c];
    Insert(SetPhase(s, c, VUnlocking(core.phase.k)), core.phase.t)
  }

  // Creation of threads, and the scheduler's queues.
  predicate SchedulerAction(a: Action) {
    a.Create? || a.Publish? || a.TakeNormal? || a.FindNone? || a.TakeIdle?
  }

  // The switch from one thread to the next.
  predicate SwitchAction(a: Action) {
    a.Mark? || a.Switch? || a.Epilogue? || a.Retire?
  }

  predicate SemaphoreAction(a: Action) {
    !SchedulerAction(a) && !SwitchAction(a)
  }

  function SchedulerNext(s: State, a: Action): State
    requires Refs(s) && Enabled(s, a) && SchedulerAction(a)
  {
    match a
    case Create(c, t, cpu, rank) => DoCreate(s, c, t, cpu, rank)
    case Publish(c) => DoPublish(s, c)
    case TakeNormal(c, why) => DoTakeNormal(s, c, why)
    case FindNone(c, why) => SetPhase(s, c, Seeking(why))
    case TakeIdle(c) => DoTakeIdle(s, c)
  }

  function SwitchNext(s: State, a: Action): State
    requires Refs(s) && Enabled(s, a) && SwitchAction(a)
  {
    match a
    case Mark(c) => DoMark(s, c)
    case Switch(c) => DoSwitch(s, c)
    case Epilogue(c) => DoEpilogue(s, c)
    case Retire(c) => DoRetire(s, c)
  }

  function SemaphoreNext(s: State, a: Action): State
    requires Refs(s) && Enabled(s, a) && SemaphoreAction(a)
  {
    match a
    case PAcquire(c, k) => DoAcquire(s, c, k, PLocked(k))
    case PDecrement(c) => DoPDecrement(s, c)
    case PEnlist(c) => DoPEnlist(s, c)
    case PRelease(c) => DoRelease(s, c, s.cores[c].phase.k)
    case VAcquire(c, k) => DoAcquire(s, c, k, VLocked(k))
    case VIncrement(c) => DoVIncrement(s, c)
    case VWake(c) => DoVWake(s, c)
    case VPublish(c) => DoVPublish(s, c)
    case VRelease(c) => DoRelease(s, c, s.cores[c].phase.k)
  }

  function Next(s: State, a: Action): State
    requires Refs(s) && Enabled(s, a)
  {
    if SchedulerAction(a) then SchedulerNext(s, a)
    else if SwitchAction(a) then SwitchNext(s, a)
    else SemaphoreNext(s, a)
  }
}
