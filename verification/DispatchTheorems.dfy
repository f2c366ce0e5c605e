// What the dispatch protocol guarantees in every state of every run, for any number of cores, threads and semaphores.

module DispatchTheorems {
  import opened Options
  import opened Dispatch
  import opened DispatchInvariant
  import opened DispatchSteps
  import opened Counting

  // ---- Runs ----

  // After initialisation: one idle thread a core, and semaphores with their initial values.
  function Initial(n: nat, values: seq<nat>): State {
    State(
      seq(n, c requires 0 <= c < n => Core(0, Booting, None, None, [], [c], [], [])),
      seq(|values|, k requires 0 <= k < |values| => Semaphore(values[k], [], None, values[k], 0, 0, [], [])),
      map c | 0 <= c < n :: Thread(c, IDLE, READY, true, InQueue(c)),
      n)
  }

  // The state after a sequence of actions, each of them enabled when its turn comes.
  ghost function After(s: State, actions: seq<Action>): Option<State> {
    if actions == [] then Some(s)
    else
      match After(s, actions[..|actions| - 1])
      case None => None
      case Some(m) => Then(m, actions[|actions| - 1])
  }

  ghost function Then(s: State, a: Action): Option<State> {
    if Refs(s) && Enabled(s, a) then Some(Next(s, a)) else None
  }

  lemma InitialParts(n: nat, values: seq<nat>)
    ensures var s := Initial(n, values);
            AllThreads(s) && AllCores(s) && AllQueues(s) && AllIdle(s) && AllSems(s)
  {
    var s := Initial(n, values);
    forall c | 0 <= c < n
      ensures CoreOk(s, c) && QueuesOk(s, c) && IdleOk(s, c)
    {
      assert s.cores[c] == Core(0, Booting, None, None, [], [c], [], []);
    }
  }

  lemma InitialInv(n: nat, values: seq<nat>)
    ensures Inv(Initial(n, values))
  {
    var s := Initial(n, values);
    BelowSize(n);
    InitialParts(n, values);
    assert Counted(s) == Below(n);
  }

  // Every state that a run reaches satisfies the invariant.
  lemma {:induction false} RunsKeepInv(s: State, actions: seq<Action>)
    requires Inv(s) && After(s, actions).Some?
    ensures Inv(After(s, actions).value)
    decreases |actions|
  {
    if actions != [] {
      var n := |actions| - 1;
      RunsKeepInv(s, actions[..n]);
      StepKeeps(After(s, actions[..n]).value, actions[n]);
    }
  }

  ghost predicate Reachable(s: State) {
    exists n: nat, values: seq<nat>, actions: seq<Action> :: After(Initial(n, values), actions) == Some(s)
  }

  // Every state that a run from initialisation reaches satisfies the invariant.
  lemma ReachableStates(s: State)
    requires Reachable(s)
    ensures Inv(s) && Refs(s)
  {
    var n: nat, values: seq<nat>, actions: seq<Action> :| After(Initial(n, values), actions) == Some(s);
    InitialInv(n, values);
    RunsKeepInv(Initial(n, values), actions);
    InvRefs(s);
  }

  ghost predicate Can(s: State, a: Action) {
    Refs(s) && Enabled(s, a)
  }

  lemma ReachableNext(s: State, a: Action)
    requires Reachable(s) && Can(s, a)
    ensures Reachable(Next(s, a))
  {
    var n: nat, values: seq<nat>, actions: seq<Action> :| After(Initial(n, values), actions) == Some(s);
    var longer := actions + [a];
    assert longer[..|longer| - 1] == actions;
    assert After(Initial(n, values), longer) == Some(Next(s, a));
  }

  // ---- One place a thread ----

  // Where thread t is, told by the heads, queues, wait lists and kernel variables alone.
  ghost predicate Placed(s: State, t: nat, o: Owner) {
    match o
    case OnCore(c, list) =>
      c < |s.cores| && HasHead(s.cores[c]) && s.cores[c].head == t && list == HeadList(s.cores[c])
    case Leaving(c, list) => c < |s.cores| && Left(s.cores[c]) == Some(t) && list == LeftLock(s.cores[c])
    case InQueue(c) => c < |s.cores| && (t in s.cores[c].normal || t in s.cores[c].idle)
    case InList(k) => k < |s.sems| && t in s.sems[k].waiting && !OnSomeCore(s, t)
    case Carried(c) =>
      c < |s.cores| && (s.cores[c].phase.Building? || s.cores[c].phase.VHolding?) && s.cores[c].phase.t == t
    case Gone => t in s.threads && s.threads[t].status == FINISHED
  }

  ghost predicate OnSomeCore(s: State, t: nat) {
    exists c :: 0 <= c < |s.cores| && ((HasHead(s.cores[c]) && s.cores[c].head == t) || Left(s.cores[c]) == Some(t))
  }

  // Every thread is in exactly one place: at one core, on one ready queue, on one wait list, or finished.
  lemma OnePlace(s: State, t: nat) returns (o: Owner)
    requires Reachable(s) && t in s.threads
    ensures Placed(s, t, o) && forall p :: Placed(s, t, p) ==> p == o
  {
    ReachableStates(s);
    assert ThreadOk(s, t);
    o := s.threads[t].owner;
    if o.InList? {
      SleeperIsOffCore(s, t);
    }
    forall p | Placed(s, t, p)
      ensures p == o
    {
      PlaceIsOwner(s, t, p);
    }
  }

  lemma SleeperIsOffCore(s: State, t: nat)
    requires Inv(s) && t in s.threads && s.threads[t].owner.InList?
    ensures !OnSomeCore(s, t)
  {
    forall c | 0 <= c < |s.cores|
      ensures !((HasHead(s.cores[c]) && s.cores[c].head == t) || Left(s.cores[c]) == Some(t))
    {
      assert CoreOk(s, c);
    }
  }

  lemma PlaceIsOwner(s: State, t: nat, o: Owner)
    requires Inv(s) && t in s.threads && Placed(s, t, o)
    ensures o == s.threads[t].owner
  {
    assert ThreadOk(s, t);
    match o {
      case OnCore(c, _) => assert CoreOk(s, c);
      case Leaving(c, _) => assert CoreOk(s, c);
      case InQueue(c) => assert QueuesOk(s, c);
      case InList(k) =>
        assert SemOk(s, k);
        var q := s.threads[t].owner;
        assert q.OnCore? || q.Leaving? ==> OnSomeCore(s, t);
      case Carried(c) => assert CoreOk(s, c);
      case Gone =>
    }
  }

  // ---- Contexts and stacks ----

  // The thread whose stack the core runs on.
  function StackOf(core: Core): Option<nat> {
    if core.phase.Picked? || core.phase.Marked? then Left(core)
    else if HasHead(core) then Some(core.head)
    else None
  }

  // A thread's context is incomplete exactly while some core runs on its stack.
  lemma UnsavedIsRunning(s: State, t: nat)
    requires Reachable(s) && t in s.threads && s.threads[t].status != FINISHED
    ensures !s.threads[t].saved <==> exists c :: 0 <= c < |s.cores| && StackOf(s.cores[c]) == Some(t)
  {
    ReachableStates(s);
    assert ThreadOk(s, t);
    var o := s.threads[t].owner;
    if !s.threads[t].saved {
      assert StackOf(s.cores[o.c]) == Some(t);
    }
    if c :| 0 <= c < |s.cores| && StackOf(s.cores[c]) == Some(t) {
      assert CoreOk(s, c);
    }
  }

  // No two cores run on the same stack.
  lemma OneCoreAStack(s: State, c: nat, d: nat)
    requires Reachable(s) && c < |s.cores| && d < |s.cores| && c != d && StackOf(s.cores[c]).Some?
    ensures StackOf(s.cores[c]) != StackOf(s.cores[d])
  {
    ReachableStates(s);
    assert CoreOk(s, c) && CoreOk(s, d);
  }

  // The context loaded by a switch has been saved before, and belongs to another thread of this core.
  lemma SwitchLoadsSaved(s: State, c: nat)
    requires Reachable(s) && c < |s.cores| && s.cores[c].phase.Marked?
    ensures var core := s.cores[c];
            && core.head in s.threads && s.threads[core.head].saved && s.threads[core.head].cpu == c
            && core.head != core.phase.prev && core.phase.prev in s.threads && !s.threads[core.phase.prev].saved
  {
    ReachableStates(s);
    assert CoreOk(s, c);
    assert ThreadOk(s, s.cores[c].head) && ThreadOk(s, s.cores[c].phase.prev);
  }

  // Whatever a ready queue offers is saved and belongs to that core.
  lemma QueuedIsSaved(s: State, c: nat, t: nat)
    requires Reachable(s) && c < |s.cores| && (t in s.cores[c].normal || t in s.cores[c].idle)
    ensures t in s.threads && s.threads[t].saved && s.threads[t].cpu == c && s.threads[t].status == READY
  {
    ReachableStates(s);
    assert QueuesOk(s, c);
    assert ThreadOk(s, t);
  }

  // Threads run only on their own core.
  lemma RunsAtHome(s: State, c: nat)
    requires Reachable(s) && c < |s.cores| && StackOf(s.cores[c]).Some?
    ensures var t := StackOf(s.cores[c]).value;
            t in s.threads && s.threads[t].cpu == c && s.threads[t].status != FINISHED
  {
    ReachableStates(s);
    assert CoreOk(s, c);
    assert ThreadOk(s, StackOf(s.cores[c]).value);
  }

  // ---- There is always a next thread ----

  // A core that found no NORMAL thread finds its idle thread: sleep, exit and start never come back empty-handed.
  lemma NextExists(s: State, c: nat)
    requires Reachable(s) && c < |s.cores| && s.cores[c].phase.Seeking?
    ensures Can(s, TakeIdle(c)) && c in s.cores[c].idle
  {
    ReachableStates(s);
    IdleIsThere(s, c);
  }

  lemma IdleIsThere(s: State, c: nat)
    requires Inv(s) && Refs(s) && c < |s.cores| && s.cores[c].phase.Seeking?
    ensures Can(s, TakeIdle(c)) && c in s.cores[c].idle
  {
    assert CoreOk(s, c) && IdleOk(s, c) && ThreadOk(s, c);
  }

  // dispatch is never asked to switch a thread to itself.
  lemma NextDiffers(s: State, c: nat)
    requires Reachable(s) && c < |s.cores| && Left(s.cores[c]).Some? && HasHead(s.cores[c])
    ensures Left(s.cores[c]) != Some(s.cores[c].head)
  {
    ReachableStates(s);
    assert CoreOk(s, c);
  }

  // ---- Semaphores ----

  // Calls of p that have passed the semaphore: neither waiting nor about to wait.
  function Passed(s: State, k: nat): int
    requires k < |s.sems|
  {
    var sem := s.sems[k];
    sem.ps - |sem.waiting| -
    (if sem.lock.Some? && sem.lock.value < |s.cores| && s.cores[sem.lock.value].phase == PSleeping(k) then 1 else 0)
  }

  // With the lock free, the counter is the initial value plus increments minus decrements, and the wait list has
  // exactly the missing length; at all times, no more calls of p have passed than units were given.
  lemma SemaphoreLaw(s: State, k: nat)
    requires Reachable(s) && k < |s.sems|
    ensures var sem := s.sems[k];
            && sem.value == sem.initial + sem.vs - sem.ps
            && (sem.lock == None ==> |sem.waiting| == Deficit(sem.value))
            && Passed(s, k) <= sem.initial + sem.vs
            && sem.enlisted == sem.woken + sem.waiting
  {
    ReachableStates(s);
    assert SemOk(s, k);
  }

  // The counter stays between minus the number of threads and the units ever given: a 32-bit counter does not wrap
  // while both fit.
  lemma CounterRange(s: State, k: nat)
    requires Reachable(s) && k < |s.sems|
    ensures -|s.threads| <= s.sems[k].value <= s.sems[k].initial + s.sems[k].vs
  {
    ReachableStates(s);
    assert SemOk(s, k);
    var sem := s.sems[k];
    var waiters := set t | t in sem.waiting;
    DistinctSize(sem.waiting, waiters);
    Subset(waiters, s.threads.Keys);
    if sem.lock.Some? && s.cores[sem.lock.value].phase == PSleeping(k) {
      var t := s.cores[sem.lock.value].head;
      assert CoreOk(s, sem.lock.value);
      Subset(waiters + {t}, s.threads.Keys);
    }
  }

  // wakeup never meets an empty list, and its thread has been left by its core.
  lemma WakeupFindsSleeper(s: State, c: nat)
    requires Reachable(s) && c < |s.cores| && s.cores[c].phase.VWaking?
    ensures Can(s, VWake(c)) && FirstSleeps(s, s.cores[c].phase.k)
  {
    ReachableStates(s);
    SleeperIsThere(s, c);
  }

  // The first waiter's context is saved, and no core is on its stack.
  ghost predicate FirstSleeps(s: State, k: nat) {
    && k < |s.sems| && s.sems[k].waiting != []
    && var t := s.sems[k].waiting[0];
       t in s.threads && s.threads[t].saved && forall d :: 0 <= d < |s.cores| ==> StackOf(s.cores[d]) != Some(t)
  }

  lemma SleeperIsThere(s: State, c: nat)
    requires Inv(s) && Refs(s) && c < |s.cores| && s.cores[c].phase.VWaking?
    ensures Can(s, VWake(c)) && FirstSleeps(s, s.cores[c].phase.k)
  {
    WaiterIsAsleep(s, c);
    var t := s.sems[s.cores[c].phase.k].waiting[0];
    forall d | 0 <= d < |s.cores|
      ensures StackOf(s.cores[d]) != Some(t)
    {
      assert CoreOk(s, d);
    }
  }

  // The epilogue of a sleeping thread releases the very lock its core holds.
  lemma EpilogueReleasesOwnLock(s: State, c: nat)
    requires Reachable(s) && c < |s.cores| && s.cores[c].phase == Switched
    ensures s.cores[c].previous.Some? && s.cores[c].previous.value in s.threads
    ensures s.threads[s.cores[c].previous.value].status == WAITING ==>
              s.cores[c].spin.Some? && s.cores[c].spin.value < |s.sems| && s.sems[s.cores[c].spin.value].lock == Some(c)
  {
    ReachableStates(s);
    LeftThread(s, c);
    assert CoreOk(s, c);
  }

  // ---- Progress ----

  // A core inside the kernel always has a step of its own: nothing it does there waits for another core.
  lemma CoreProceeds(s: State, c: nat) returns (a: Action)
    requires Reachable(s) && c < |s.cores| && s.cores[c].phase != Booting && s.cores[c].phase != Running
    ensures a.c == c && Can(s, a)
  {
    ReachableStates(s);
    if Target(s.cores[c].phase).Some? && !s.cores[c].phase.Seeking? {
      a := SemaphoreProceeds(s, c);
    } else {
      a := SchedulerProceeds(s, c);
    }
  }

  lemma SemaphoreProceeds(s: State, c: nat) returns (a: Action)
    requires Inv(s) && Refs(s) && c < |s.cores| && Target(s.cores[c].phase).Some? && !s.cores[c].phase.Seeking?
    ensures a.c == c && Can(s, a)
  {
    var core := s.cores[c];
    match core.phase {
      case PLocked(_) => a := PDecrement(c);
      case PSleeping(_) => a := PEnlist(c);
      case Enlisted(k) => a := if core.normal != [] then TakeNormal(c, Sleep(k)) else FindNone(c, Sleep(k));
      case PUnlocking(_) => a := PRelease(c);
      case VLocked(_) => a := VIncrement(c);
      case VWaking(_) => SleeperIsThere(s, c); a := VWake(c);
      case VHolding(_, _) => a := VPublish(c);
      case VUnlocking(_) => a := VRelease(c);
    }
  }

  lemma SchedulerProceeds(s: State, c: nat) returns (a: Action)
    requires Inv(s) && Refs(s) && c < |s.cores| && s.cores[c].phase != Booting && s.cores[c].phase != Running
    requires Target(s.cores[c].phase) == None || s.cores[c].phase.Seeking?
    ensures a.c == c && Can(s, a)
  {
    match s.cores[c].phase {
      case Building(_, _) => a := Publish(c);
      case Seeking(_) => IdleIsThere(s, c); a := TakeIdle(c);
      case Picked(_, _) => a := Mark(c);
      case Marked(_) => a := Switch(c);
      case Switched => a := Epilogue(c);
      case Retiring => a := Retire(c);
    }
  }

  // A core at boot takes a NORMAL thread, or goes on to its idle thread, which waits for it.
  lemma StartProceeds(s: State, c: nat)
    requires Reachable(s) && c < |s.cores| && s.cores[c].phase == Booting
    ensures Can(s, TakeNormal(c, Start)) || (Can(s, FindNone(c, Start)) && c in s.cores[c].idle)
  {
    ReachableStates(s);
    IdleWaitsAtBoot(s, c);
    BootAsks(s, c);
  }

  lemma BootAsks(s: State, c: nat)
    requires Refs(s) && c < |s.cores| && s.cores[c].phase == Booting
    ensures Can(s, TakeNormal(c, Start)) || Can(s, FindNone(c, Start))
  {
  }

  lemma IdleWaitsAtBoot(s: State, c: nat)
    requires Inv(s) && c < |s.cores| && s.cores[c].phase == Booting
    ensures c in s.cores[c].idle
  {
    assert IdleOk(s, c) && ThreadOk(s, c);
  }

  // How many steps of its own a core with a semaphore's lock is from releasing it.
  function ToRelease(phase: Phase): (n: nat)
    ensures 1 <= n <= 7
  {
    match phase
    case PLocked(_) => 7
    case PSleeping(_) => 6
    case Enlisted(_) => 5
    case Seeking(_) => 4
    case Picked(_, _) => 3
    case Marked(_) => 2
    case VLocked(_) => 4
    case VWaking(_) => 3
    case VHolding(_, _) => 2
    case _ => 1
  }

  // Core c, which has lock k, releases it with this step or comes nearer to that.
  ghost predicate Nearer(s: State, s': State, c: nat, k: nat) {
    && k < |s.sems| == |s'.sems| && c < |s.cores| == |s'.cores|
    && (s'.sems[k].lock == None
        || (s'.sems[k].lock == Some(c) && ToRelease(s'.cores[c].phase) < ToRelease(s.cores[c].phase)))
  }

  // The lock and its holder stay as they are.
  ghost predicate Undisturbed(s: State, s': State, c: nat, k: nat) {
    && k < |s.sems| == |s'.sems| && c < |s.cores| == |s'.cores|
    && s'.sems[k].lock == s.sems[k].lock && s'.cores[c].phase == s.cores[c].phase
  }

  lemma OwnStep(s: State, a: Action, k: nat)
    requires Inv(s) && Can(s, a) && k < |s.sems| && s.sems[k].lock == Some(a.c)
    ensures Nearer(s, Next(s, a), a.c, k)
  {
    assert CoreOk(s, a.c) && SemOk(s, k);
    if SchedulerAction(a) {
      OwnSchedulerStep(s, a, k);
    } else if SwitchAction(a) {
      OwnSwitchStep(s, a, k);
    } else {
      OwnSemaphoreStep(s, a, k);
    }
  }

  lemma OwnSchedulerStep(s: State, a: Action, k: nat)
    requires Can(s, a) && SchedulerAction(a) && CoreOk(s, a.c) && HoldsLock(s.cores[a.c], k)
    requires k < |s.sems| && s.sems[k].lock == Some(a.c)
    ensures Nearer(s, Next(s, a), a.c, k)
  {
  }

  lemma OwnSwitchStep(s: State, a: Action, k: nat)
    requires Inv(s) && Can(s, a) && SwitchAction(a) && CoreOk(s, a.c) && HoldsLock(s.cores[a.c], k)
    requires k < |s.sems| && s.sems[k].lock == Some(a.c)
    ensures Nearer(s, Next(s, a), a.c, k)
  {
    match a {
      case Mark(c) => OwnMark(s, c, k);
      case Switch(c) => OwnSwitch(s, c, k);
      case Epilogue(c) => LeftThread(s, c); EpilogueFrees(s, c, k);
      case Retire(_) =>
    }
  }

  lemma OwnMark(s: State, c: nat, k: nat)
    requires Can(s, Mark(c)) && k < |s.sems| && s.sems[k].lock == Some(c)
    ensures Nearer(s, Next(s, Mark(c)), c, k)
  {
  }

  lemma OwnSwitch(s: State, c: nat, k: nat)
    requires Can(s, Switch(c)) && k < |s.sems| && s.sems[k].lock == Some(c)
    ensures Nearer(s, Next(s, Switch(c)), c, k)
  {
  }

  lemma EpilogueFrees(s: State, c: nat, k: nat)
    requires Can(s, Epilogue(c)) && k < |s.sems| && CoreOk(s, c) && s.cores[c].spin == Some(k)
    requires ThreadOk(s, s.cores[c].previous.value)
    ensures |Next(s, Epilogue(c)).sems| == |s.sems| && |Next(s, Epilogue(c)).cores| == |s.cores|
    ensures Next(s, Epilogue(c)).sems[k].lock == None
  {
  }

  lemma OwnSemaphoreStep(s: State, a: Action, k: nat)
    requires Can(s, a) && SemaphoreAction(a) && CoreOk(s, a.c) && HoldsLock(s.cores[a.c], k)
    requires k < |s.sems| && s.sems[k].lock == Some(a.c)
    ensures Nearer(s, Next(s, a), a.c, k)
  {
  }

  lemma OthersStep(s: State, a: Action, c: nat, k: nat)
    requires Inv(s) && Can(s, a) && c < |s.cores| && a.c != c && k < |s.sems| && s.sems[k].lock == Some(c)
    ensures Undisturbed(s, Next(s, a), c, k)
  {
    assert CoreOk(s, a.c);
    if SchedulerAction(a) {
      OthersSchedulerStep(s, a, c, k);
    } else if SwitchAction(a) {
      OthersSwitchStep(s, a, c, k);
    } else {
      OthersSemaphoreStep(s, a, c, k);
    }
  }

  lemma OthersSchedulerStep(s: State, a: Action, c: nat, k: nat)
    requires Can(s, a) && SchedulerAction(a) && c < |s.cores| && a.c != c && k < |s.sems|
    ensures Undisturbed(s, Next(s, a), c, k)
  {
  }

  lemma OthersSwitchStep(s: State, a: Action, c: nat, k: nat)
    requires Can(s, a) && SwitchAction(a) && CoreOk(s, a.c)
    requires c < |s.cores| && a.c != c && k < |s.sems| && s.sems[k].lock == Some(c)
    ensures Undisturbed(s, Next(s, a), c, k)
  {
  }

  lemma OthersSemaphoreStep(s: State, a: Action, c: nat, k: nat)
    requires Can(s, a) && SemaphoreAction(a) && CoreOk(s, a.c)
    requires c < |s.cores| && a.c != c && k < |s.sems| && s.sems[k].lock == Some(c)
    ensures Undisturbed(s, Next(s, a), c, k)
  {
  }

  // How many of the actions are core c's.
  function Own(actions: seq<Action>, c: nat): nat {
    if actions == [] then 0
    else Own(actions[..|actions| - 1], c) + (if actions[|actions| - 1].c == c then 1 else 0)
  }

  // Whether a run from s frees lock k in between.
  ghost predicate Frees(s: State, actions: seq<Action>, k: nat) {
    exists i :: 0 <= i <= |actions| && FreeAfter(s, actions[..i], k)
  }

  ghost predicate FreeAfter(s: State, actions: seq<Action>, k: nat) {
    var t := After(s, actions);
    t.Some? && k < |t.value.sems| && t.value.sems[k].lock == None
  }

  lemma FreesLonger(s: State, actions: seq<Action>, n: nat, k: nat)
    requires n <= |actions| && Frees(s, actions[..n], k)
    ensures Frees(s, actions, k)
  {
    var i :| 0 <= i <= n && FreeAfter(s, actions[..n][..i], k);
    assert actions[..n][..i] == actions[..i];
  }

  // A core that has a semaphore's lock frees it within seven steps of its own, whatever the other cores do.
  lemma {:induction false} LockIsReleased(s: State, actions: seq<Action>, c: nat, k: nat)
    requires Reachable(s) && c < |s.cores| && k < |s.sems| && s.sems[k].lock == Some(c)
    requires After(s, actions).Some? && Own(actions, c) >= 7
    ensures Frees(s, actions, k)
  {
    ReachableStates(s);
    LockCountsDown(s, actions, c, k);
    if !Frees(s, actions, k) {
      HeldTooLong(s, After(s, actions).value, c, k, Own(actions, c));
    }
  }

  lemma HeldTooLong(s: State, t: State, c: nat, k: nat, own: nat)
    requires StillHeld(s, t, c, k, own)
    ensures own < 7
  {
  }

  ghost predicate StillHeld(s: State, t: State, c: nat, k: nat, own: nat) {
    && Inv(t) && c < |t.cores| && k < |t.sems| && t.sems[k].lock == Some(c)
    && c < |s.cores| && ToRelease(t.cores[c].phase) + own <= ToRelease(s.cores[c].phase)
  }

  lemma {:induction false} LockCountsDown(s: State, actions: seq<Action>, c: nat, k: nat)
    requires Inv(s) && c < |s.cores| && k < |s.sems| && s.sems[k].lock == Some(c) && After(s, actions).Some?
    ensures Frees(s, actions, k) || StillHeld(s, After(s, actions).value, c, k, Own(actions, c))
    decreases |actions|
  {
    if actions != [] {
      var n := |actions| - 1;
      LockCountsDown(s, actions[..n], c, k);
      if Frees(s, actions[..n], k) {
        FreesLonger(s, actions, n, k);
      } else {
        HeldStep(s, After(s, actions[..n]).value, actions[n], c, k, Own(actions[..n], c));
        assert actions[..|actions|] == actions;
        assert FreeAfter(s, actions[..|actions|], k) ==> Frees(s, actions, k);
      }
    }
  }

  lemma HeldStep(s: State, t: State, a: Action, c: nat, k: nat, own: nat)
    requires StillHeld(s, t, c, k, own) && Can(t, a)
    ensures var u := Next(t, a);
            && k < |u.sems|
            && (u.sems[k].lock == None || StillHeld(s, u, c, k, own + (if a.c == c then 1 else 0)))
  {
    StepKeeps(t, a);
    if a.c == c {
      OwnStep(t, a, k);
    } else {
      OthersStep(t, a, c, k);
    }
  }

  // ---- Bounded waiting ----

  lemma InsertLogs(s: State, c: nat, ph: Phase, t: nat, d: nat)
    requires c < |s.cores| && t in s.threads && s.threads[t].cpu < |s.cores| && d < |s.cores|
    ensures var s' := Insert(SetPhase(s, c, ph), t);
            s.cores[d].queued <= s'.cores[d].queued && s'.cores[d].taken == s.cores[d].taken
  {
  }

  predicate Inserts(a: Action) {
    a.Publish? || a.VPublish? || a.Epilogue?
  }

  lemma OthersKeepLogs(s: State, a: Action, c: nat)
    requires Refs(s) && Enabled(s, a) && c < |s.cores| && !Inserts(a) && !a.TakeNormal?
    ensures var s' := Next(s, a);
            |s'.cores| == |s.cores| && s'.cores[c].queued == s.cores[c].queued && s'.cores[c].taken == s.cores[c].taken
  {
  }

  // The logs of core c after an insertion by another core's or its own step.
  predicate InsertLogged(s: State, s': State, c: nat)
    requires c < |s.cores|
  {
    && |s'.cores| == |s.cores|
    && s.cores[c].queued <= s'.cores[c].queued && s'.cores[c].taken == s.cores[c].taken
  }

  lemma EpilogueLogs(s: State, a: nat, c: nat)
    requires Refs(s) && Enabled(s, Epilogue(a)) && c < |s.cores|
    ensures InsertLogged(s, DoEpilogue(s, a), c)
  {
    if s.threads[s.cores[a].previous.value].status == READY {
      InsertLogs(s, a, Running, s.cores[a].previous.value, c);
    }
  }

  lemma InsertsLog(s: State, a: Action, c: nat)
    requires Refs(s) && Enabled(s, a) && c < |s.cores| && Inserts(a)
    ensures InsertLogged(s, Next(s, a), c)
  {
    var core := s.cores[a.c];
    match a {
      case Publish(_) => InsertLogs(s, a.c, if core.phase.boot then Booting else Running, core.phase.t, c);
      case VPublish(_) => InsertLogs(s, a.c, VUnlocking(core.phase.k), core.phase.t, c);
      case Epilogue(_) => EpilogueLogs(s, a.c, c);
    }
  }

  lemma TakeLogs(s: State, a: Action, c: nat)
    requires Refs(s) && Enabled(s, a) && c < |s.cores| && a.TakeNormal?
    ensures var s' := Next(s, a);
            && |s'.cores| == |s.cores| && s'.cores[c].queued == s.cores[c].queued
            && s'.cores[c].taken == if a.c == c then s.cores[c].taken + [s.cores[c].normal[0]] else s.cores[c].taken
  {
  }

  // One step takes at most the first thread of a core's NORMAL queue, and appends to what was ever queued.
  lemma StepLogs(s: State, a: Action, c: nat)
    requires Inv(s) && Refs(s) && Enabled(s, a) && c < |s.cores|
    ensures var s' := Next(s, a);
            && Inv(s') && |s'.cores| == |s.cores|
            && s.cores[c].queued <= s'.cores[c].queued
            && s'.cores[c].taken == if a.TakeNormal? && a.c == c then s.cores[c].taken + [s.cores[c].normal[0]]
                                    else s.cores[c].taken
  {
    StepKeeps(s, a);
    if Inserts(a) {
      InsertsLog(s, a, c);
    } else if a.TakeNormal? {
      TakeLogs(s, a, c);
    } else {
      OthersKeepLogs(s, a, c);
    }
  }

  // How many of the actions take a thread from core c's NORMAL queue.
  function Takes(actions: seq<Action>, c: nat): nat {
    if actions == [] then 0
    else Takes(actions[..|actions| - 1], c)
         + (var a := actions[|actions| - 1]; if a.TakeNormal? && a.c == c then 1 else 0)
  }

  // What a step may do to the logs of one core.
  predicate Logged(core: Core, core': Core, takes: nat) {
    core.queued <= core'.queued && core.taken <= core'.taken && |core'.taken| == |core.taken| + takes
  }

  lemma StepLogged(s: State, a: Action, c: nat)
    requires Inv(s) && Then(s, a).Some? && c < |s.cores|
    ensures var s' := Then(s, a).value;
            Inv(s') && |s'.cores| == |s.cores| && Logged(s.cores[c], s'.cores[c], if a.TakeNormal? && a.c == c then 1 else 0)
  {
    StepLogs(s, a, c);
  }

  lemma LoggedTwice(core: Core, core1: Core, core2: Core, i: nat, j: nat)
    requires Logged(core, core1, i) && Logged(core1, core2, j)
    ensures Logged(core, core2, i + j)
  {
  }

  lemma {:induction false} StretchLogs(s: State, actions: seq<Action>, c: nat)
    requires Inv(s) && After(s, actions).Some? && c < |s.cores|
    ensures var s' := After(s, actions).value;
            Inv(s') && |s'.cores| == |s.cores| && Logged(s.cores[c], s'.cores[c], Takes(actions, c))
    decreases |actions|
  {
    if actions != [] {
      var n := |actions| - 1;
      var m := After(s, actions[..n]).value;
      StretchLogs(s, actions[..n], c);
      StepLogged(m, actions[n], c);
      LoggedTwice(s.cores[c], m.cores[c], Then(m, actions[n]).value.cores[c], Takes(actions[..n], c),
                  if actions[n].TakeNormal? && actions[n].c == c then 1 else 0);
    }
  }

  // After r takes, the thread that was at position p has moved up by r, or was the (p+1)-th one taken.
  predicate MovedUp(core: Core, core': Core, p: nat, r: nat) {
    p < |core.normal| &&
    if r <= p then p - r < |core'.normal| && core'.normal[p - r] == core.normal[p]
    else |core.taken| + p < |core'.taken| && core'.taken[|core.taken| + p] == core.normal[p]
  }

  // A thread at position p of a core's NORMAL queue is the one returned by the (p+1)-th following take on that
  // core, whatever other cores and other threads do; until then it moves up by one with each take.
  lemma BoundedWaiting(s: State, actions: seq<Action>, c: nat, p: nat)
    requires Reachable(s) && After(s, actions).Some? && c < |s.cores| && p < |s.cores[c].normal|
    ensures |After(s, actions).value.cores| == |s.cores|
    ensures MovedUp(s.cores[c], After(s, actions).value.cores[c], p, Takes(actions, c))
  {
    ReachableStates(s);
    StretchLogs(s, actions, c);
    QueuesMove(s, After(s, actions).value, c, p, Takes(actions, c));
  }

  lemma QueuesMove(s: State, s': State, c: nat, p: nat, r: nat)
    requires Inv(s) && Inv(s') && c < |s.cores| && |s'.cores| == |s.cores| && p < |s.cores[c].normal|
    requires Logged(s.cores[c], s'.cores[c], r)
    ensures MovedUp(s.cores[c], s'.cores[c], p, r)
  {
    assert QueuesOk(s, c) && QueuesOk(s', c);
    QueuePosition(s.cores[c].taken, s.cores[c].normal, s'.cores[c].taken, s'.cores[c].normal, p);
  }

  lemma QueuePosition(taken: seq<nat>, queue: seq<nat>, taken': seq<nat>, queue': seq<nat>, p: nat)
    requires taken + queue <= taken' + queue' && taken <= taken' && p < |queue|
    ensures var r := |taken'| - |taken|;
            if r <= p then p - r < |queue'| && queue'[p - r] == queue[p] else taken'[|taken| + p] == queue[p]
  {
    assert (taken + queue)[|taken| + p] == queue[p];
    assert (taken' + queue')[|taken| + p] == (taken + queue)[|taken| + p];
  }

  // ---- Accounting ----

  // A core has left the thread for good, and discounted it, but not yet marked it finished.
  ghost predicate Discounted(s: State, t: nat) {
    exists c :: 0 <= c < |s.cores| && s.cores[c].phase.Retiring? && s.cores[c].previous == Some(t)
  }

  ghost function Live(s: State): set<nat> {
    set t | t in s.threads && s.threads[t].status != FINISHED && !Discounted(s, t)
  }

  // The counter is the number of threads not yet finished or discounted.
  lemma CountsLiveThreads(s: State)
    requires Reachable(s)
    ensures s.count == |Live(s)|
    ensures forall t :: t in s.threads && Discounted(s, t) ==> s.threads[t].status == FINISHING
  {
    ReachableStates(s);
    forall t | t in s.threads
      ensures t in Counted(s) <==> t in Live(s)
      ensures Discounted(s, t) ==> s.threads[t].status == FINISHING
    {
      CountedIsLive(s, t);
    }
    assert Counted(s) == Live(s);
  }

  lemma CountedIsLive(s: State, t: nat)
    requires Inv(s) && t in s.threads
    ensures Uncounted(s, s.threads[t].owner) <==> s.threads[t].status == FINISHED || Discounted(s, t)
    ensures Discounted(s, t) ==> s.threads[t].status == FINISHING && s.threads[t].saved
  {
    assert ThreadOk(s, t);
    if c :| 0 <= c < |s.cores| && s.cores[c].phase.Retiring? && s.cores[c].previous == Some(t) {
      assert CoreOk(s, c);
    }
  }

  // A finished thread's stack is used by no core: it may be freed.
  lemma FinishedIsOffCore(s: State, t: nat)
    requires Reachable(s) && t in s.threads && s.threads[t].status == FINISHED
    ensures forall c :: 0 <= c < |s.cores| ==> StackOf(s.cores[c]) != Some(t)
  {
    ReachableStates(s);
    assert ThreadOk(s, t);
    forall c | 0 <= c < |s.cores|
      ensures StackOf(s.cores[c]) != Some(t)
    {
      assert CoreOk(s, c);
    }
  }

  // When the idle loop's condition fails, every other thread is finished, or has been left for good by its core,
  // which is about to mark it finished.
  lemma IdleLoopEnds(s: State, t: nat)
    requires Reachable(s) && s.count <= |s.cores| && t in s.threads && t >= |s.cores|
    ensures s.threads[t].status == FINISHED
         || (s.threads[t].status == FINISHING && s.threads[t].saved && Discounted(s, t))
  {
    ReachableStates(s);
    OnlyIdleCounted(s, t);
    CountedIsLive(s, t);
  }

  lemma OnlyIdleCounted(s: State, t: nat)
    requires Inv(s) && s.count <= |s.cores| && t in s.threads && t >= |s.cores|
    ensures t !in Counted(s)
  {
    var idle := Below(|s.cores|);
    BelowSize(|s.cores|);
    forall c | c in idle
      ensures c in Counted(s)
    {
      assert IdleOk(s, c) && ThreadOk(s, c);
    }
    if t in Counted(s) {
      Subset(idle + {t}, Counted(s));
    }
  }
}
