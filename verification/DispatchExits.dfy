// What becomes of a thread over whole runs: exit ends it, nothing else does, and it stays the thread it was created.

module DispatchExits {
  import opened Options
  import opened Dispatch
  import opened DispatchInvariant
  import opened DispatchSteps
  import opened DispatchTheorems

  // ---- The status of a thread, step by step ----

  // Why the action takes a thread from a ready queue.
  function Asked(s: State, a: Action): Option<Why>
    requires Refs(s) && Enabled(s, a)
  {
    match a
    case TakeNormal(_, why) => Some(why)
    case TakeIdle(c) => Some(s.cores[c].phase.why)
    case _ => None
  }

  // By this action thread t gives up its core for that reason.
  predicate Leaves(s: State, a: Action, t: nat, why: Why)
    requires Refs(s) && Enabled(s, a)
  {
    Asked(s, a) == Some(why) && s.cores[a.c].head == t
  }

  // The thread's status after the action: what it leaves with, RUNNING when it is dispatched, READY when it is
  // woken, FINISHED when its core has left it for good; any other action keeps it.
  function StatusAfter(s: State, a: Action, t: nat): Status
    requires Refs(s) && Enabled(s, a) && t in s.threads
  {
    var core := s.cores[a.c];
    if Leaves(s, a, t, Exit) then FINISHING
    else if Leaves(s, a, t, Yield) then READY
    else if Asked(s, a).Some? && Asked(s, a).value.Sleep? && core.head == t then WAITING
    else if a.Mark? && core.head == t then RUNNING
    else if a.VWake? && s.sems[core.phase.k].waiting[0] == t then READY
    else if a.Retire? && core.previous == Some(t) then FINISHED
    else s.threads[t].status
  }

  // The action leaves t its core and rank, and gives it that status.
  ghost predicate Follows(s: State, a: Action, s': State, t: nat)
    requires Refs(s) && Enabled(s, a) && t in s.threads
  {
    && t in s'.threads && s'.threads[t].cpu == s.threads[t].cpu && s'.threads[t].rank == s.threads[t].rank
    && s'.threads[t].status == StatusAfter(s, a, t)
  }

  lemma StatusSteps(s: State, a: Action, t: nat)
    requires Inv(s) && Can(s, a) && t in s.threads
    ensures Follows(s, a, Next(s, a), t)
  {
    assert CoreOk(s, a.c) && QueuesOk(s, a.c);
    if a.TakeNormal? {
      TakeFollows(s, a, t);
    } else if a.TakeIdle? {
      TakeIdleFollows(s, a, t);
    } else if SchedulerAction(a) {
      SchedulerFollows(s, a, t);
    } else if a.Epilogue? {
      EpilogueFollows(s, a, t);
    } else if SwitchAction(a) {
      SwitchFollows(s, a, t);
    } else {
      SemaphoreFollows(s, a, t);
    }
  }

  lemma TakeFollows(s: State, a: Action, t: nat)
    requires Can(s, a) && t in s.threads && a.TakeNormal? && CoreOk(s, a.c) && QueuesOk(s, a.c)
    ensures Follows(s, a, Next(s, a), t)
  {
  }

  lemma TakeIdleFollows(s: State, a: Action, t: nat)
    requires Can(s, a) && t in s.threads && a.TakeIdle? && CoreOk(s, a.c) && QueuesOk(s, a.c)
    ensures Follows(s, a, Next(s, a), t)
  {
  }

  lemma SchedulerFollows(s: State, a: Action, t: nat)
    requires Can(s, a) && t in s.threads && SchedulerAction(a) && !a.TakeNormal? && !a.TakeIdle?
    ensures Follows(s, a, Next(s, a), t)
  {
  }

  lemma EpilogueFollows(s: State, a: Action, t: nat)
    requires Can(s, a) && t in s.threads && a.Epilogue? && CoreOk(s, a.c)
    ensures Follows(s, a, Next(s, a), t)
  {
  }

  lemma SwitchFollows(s: State, a: Action, t: nat)
    requires Can(s, a) && t in s.threads && SwitchAction(a) && !a.Epilogue? && CoreOk(s, a.c)
    ensures Follows(s, a, Next(s, a), t)
  {
  }

  lemma SemaphoreFollows(s: State, a: Action, t: nat)
    requires Can(s, a) && t in s.threads && SemaphoreAction(a)
    ensures Follows(s, a, Next(s, a), t)
  {
  }

  // ---- Exit ----

  // The thread that exits, yields or sleeps is the one the core runs, and its status is that of its reason.
  lemma LeavingSets(s: State, a: Action, why: Why)
    requires Reachable(s) && Can(s, a) && Asked(s, a) == Some(why) && why != Start
    ensures var t, s' := s.cores[a.c].head, Next(s, a);
            && t in s.threads && t in s'.threads
            && (why == Exit ==> s'.threads[t].status == FINISHING)
            && (why == Yield ==> s'.threads[t].status == READY)
            && (why.Sleep? ==> s'.threads[t].status == WAITING)
            && a.c < |s'.cores| && Left(s'.cores[a.c]) == Some(t)
  {
    ReachableStates(s);
    AskerExists(s, a);
    StatusSteps(s, a, s.cores[a.c].head);
    LeavesStack(s, a);
    LeftWith(s, a, Next(s, a), why);
  }

  lemma AskerExists(s: State, a: Action)
    requires Can(s, a) && Asked(s, a).Some? && Asked(s, a) != Some(Start)
    ensures s.cores[a.c].head in s.threads
  {
  }

  lemma LeftWith(s: State, a: Action, s': State, why: Why)
    requires Can(s, a) && Asked(s, a) == Some(why) && s.cores[a.c].head in s.threads && Follows(s, a, s', s.cores[a.c].head)
    ensures var t := s.cores[a.c].head;
            && (why == Exit ==> s'.threads[t].status == FINISHING)
            && (why == Yield ==> s'.threads[t].status == READY)
            && (why.Sleep? ==> s'.threads[t].status == WAITING)
  {
  }

  lemma LeavesStack(s: State, a: Action)
    requires Can(s, a) && Asked(s, a).Some? && Asked(s, a) != Some(Start)
    ensures var s' := Next(s, a);
            a.c < |s'.cores| && s'.cores[a.c].phase.Picked? && Left(s'.cores[a.c]) == Some(s.cores[a.c].head)
  {
  }

  predicate Ended(s: State, t: nat) {
    t in s.threads && (s.threads[t].status == FINISHING || s.threads[t].status == FINISHED)
  }

  // One action ends a thread if and only if the thread exits by it; what has ended does not come back.
  lemma ExitsEnd(s: State, a: Action, t: nat)
    requires Inv(s) && Can(s, a) && t in s.threads
    ensures Ended(Next(s, a), t) <==> Ended(s, t) || Leaves(s, a, t, Exit)
    ensures s.threads[t].status == FINISHED ==> Next(s, a).threads[t].status == FINISHED
  {
    StatusSteps(s, a, t);
    assert ThreadOk(s, t) && CoreOk(s, a.c);
    EndedIsElsewhere(s, a, t);
    EndedAfter(s, a, Next(s, a), t);
  }

  lemma EndedAfter(s: State, a: Action, s': State, t: nat)
    requires Can(s, a) && t in s.threads && Elsewhere(s, a, t) && Follows(s, a, s', t)
    ensures Ended(s', t) <==> Ended(s, t) || Leaves(s, a, t, Exit)
    ensures s.threads[t].status == FINISHED ==> s'.threads[t].status == FINISHED
  {
  }

  // A thread that has ended is not the one that a core runs, wakes or dispatches.
  ghost predicate Elsewhere(s: State, a: Action, t: nat)
    requires Refs(s) && Enabled(s, a) && t in s.threads
  {
    && (Ended(s, t) ==> !Asked(s, a).Some? || Asked(s, a) == Some(Start) || s.cores[a.c].head != t)
    && (Ended(s, t) && a.Mark? ==> s.cores[a.c].head != t)
    && (Ended(s, t) && a.VWake? ==> s.sems[s.cores[a.c].phase.k].waiting[0] != t)
    && (a.Retire? && s.cores[a.c].previous == Some(t) ==> s.threads[t].status == FINISHING)
  }

  lemma EndedIsElsewhere(s: State, a: Action, t: nat)
    requires Inv(s) && Can(s, a) && t in s.threads
    ensures Elsewhere(s, a, t)
  {
    assert ThreadOk(s, t) && CoreOk(s, a.c);
    if a.VWake? {
      assert SemOk(s, s.cores[a.c].phase.k);
      EndedIsNotWoken(s, a, t);
    } else {
      EndedIsNotHead(s, a, t);
    }
  }

  lemma EndedIsNotWoken(s: State, a: Action, t: nat)
    requires Can(s, a) && t in s.threads && ThreadOk(s, t) && a.VWake? && SemOk(s, s.cores[a.c].phase.k)
    ensures Elsewhere(s, a, t)
  {
  }

  lemma EndedIsNotHead(s: State, a: Action, t: nat)
    requires Can(s, a) && t in s.threads && ThreadOk(s, t) && CoreOk(s, a.c) && !a.VWake?
    ensures Elsewhere(s, a, t)
  {
  }

  // ---- An exit runs to its end ----

  // How many own steps the core is from marking the thread it leaves as finished.
  function ToFinish(phase: Phase): nat {
    match phase
    case Seeking(_) => 5
    case Picked(_, _) => 4
    case Marked(_) => 3
    case Switched => 2
    case _ => 1
  }

  // Thread t has asked to exit on core c, and at most n steps of that core are missing; or it is finished.
  ghost predicate Ending(s: State, c: nat, t: nat, n: int) {
    t in s.threads &&
    (s.threads[t].status == FINISHED
     || (c < |s.cores| && ToFinish(s.cores[c].phase) <= n &&
         if s.cores[c].phase == Seeking(Exit) then s.cores[c].head == t
         else s.threads[t].status == FINISHING && Left(s.cores[c]) == Some(t)))
  }

  // The core's own step comes nearer.
  lemma OwnEnding(s: State, a: Action, t: nat, n: int)
    requires Inv(s) && Can(s, a) && Ending(s, a.c, t, n)
    ensures Ending(Next(s, a), a.c, t, n - 1)
  {
    if s.threads[t].status == FINISHED {
      ExitsEnd(s, a, t);
    } else if s.cores[a.c].phase == Seeking(Exit) {
      SeekingEnds(s, a, t, n);
    } else {
      assert CoreOk(s, a.c);
      LeavingStep(s, a, t);
    }
  }

  lemma SeekingEnds(s: State, a: Action, t: nat, n: int)
    requires Inv(s) && Can(s, a) && Ending(s, a.c, t, n) && s.cores[a.c].phase == Seeking(Exit)
    requires s.threads[t].status != FINISHED
    ensures Ending(Next(s, a), a.c, t, n - 1)
  {
    SeekingStep(s, a);
    StatusSteps(s, a, t);
    LeavesStack(s, a);
    EndingBegins(s, a, Next(s, a), t, n);
  }

  lemma EndingBegins(s: State, a: Action, s': State, t: nat, n: int)
    requires Can(s, a) && t in s.threads && Leaves(s, a, t, Exit) && Follows(s, a, s', t)
    requires a.c < |s'.cores| && s'.cores[a.c].phase.Picked? && Left(s'.cores[a.c]) == Some(t) && n >= 5
    ensures Ending(s', a.c, t, n - 1)
  {
  }

  lemma SeekingStep(s: State, a: Action)
    requires Can(s, a) && s.cores[a.c].phase == Seeking(Exit)
    ensures a.TakeIdle? && Asked(s, a) == Some(Exit)
  {
  }

  lemma LeavingStep(s: State, a: Action, t: nat)
    requires Can(s, a) && CoreOk(s, a.c) && t in s.threads && s.threads[t].status == FINISHING
    requires Left(s.cores[a.c]) == Some(t)
    ensures SwitchAction(a)
    ensures var s' := Next(s, a);
            a.c < |s'.cores| && t in s'.threads &&
            if s.cores[a.c].phase == Retiring then s'.threads[t].status == FINISHED
            else s'.threads[t].status == FINISHING && Left(s'.cores[a.c]) == Some(t)
                 && ToFinish(s'.cores[a.c].phase) == ToFinish(s.cores[a.c].phase) - 1
  {
  }

  // Another core's step leaves a core's head, phase and previous thread.
  predicate SameCore(s: State, s': State, c: nat) {
    c < |s.cores| == |s'.cores| &&
    var core, core' := s.cores[c], s'.cores[c];
    core'.head == core.head && core'.phase == core.phase && core'.previous == core.previous && core'.spin == core.spin
  }

  lemma OthersLeaveCore(s: State, a: Action, c: nat)
    requires Can(s, a) && c < |s.cores| && a.c != c
    ensures SameCore(s, Next(s, a), c)
  {
    if SchedulerAction(a) {
      OthersSchedulerLeave(s, a, c);
    } else if SwitchAction(a) {
      OthersSwitchLeave(s, a, c);
    } else {
      OthersSemaphoreLeave(s, a, c);
    }
  }

  lemma OthersSchedulerLeave(s: State, a: Action, c: nat)
    requires Can(s, a) && c < |s.cores| && a.c != c && SchedulerAction(a)
    ensures SameCore(s, Next(s, a), c)
  {
  }

  lemma OthersSwitchLeave(s: State, a: Action, c: nat)
    requires Can(s, a) && c < |s.cores| && a.c != c && SwitchAction(a)
    ensures SameCore(s, Next(s, a), c)
  {
  }

  lemma OthersSemaphoreLeave(s: State, a: Action, c: nat)
    requires Can(s, a) && c < |s.cores| && a.c != c && SemaphoreAction(a)
    ensures SameCore(s, Next(s, a), c)
  {
  }

  // Another core's step takes nothing away.
  lemma OthersEnding(s: State, a: Action, c: nat, t: nat, n: int)
    requires Inv(s) && Can(s, a) && a.c != c && Ending(s, c, t, n)
    ensures Ending(Next(s, a), c, t, n)
  {
    ExitsEnd(s, a, t);
    if s.threads[t].status != FINISHED {
      OthersLeaveCore(s, a, c);
      assert ThreadOk(s, t) && CoreOk(s, a.c) && CoreOk(s, c);
      StatusSteps(s, a, t);
      EndedIsElsewhere(s, a, t);
      EndingKept(s, a, Next(s, a), c, t, n);
    }
  }

  lemma EndingKept(s: State, a: Action, s': State, c: nat, t: nat, n: int)
    requires Can(s, a) && a.c != c && Ending(s, c, t, n) && s.threads[t].status != FINISHED
    requires ThreadOk(s, t) && CoreOk(s, a.c) && CoreOk(s, c)
    requires SameCore(s, s', c) && Follows(s, a, s', t) && Elsewhere(s, a, t)
    ensures Ending(s', c, t, n)
  {
  }

  lemma {:induction false} EndingRuns(s: State, actions: seq<Action>, c: nat, t: nat, n: int)
    requires Inv(s) && After(s, actions).Some? && Ending(s, c, t, n)
    ensures Ending(After(s, actions).value, c, t, n - Own(actions, c))
    decreases |actions|
  {
    if actions != [] {
      var m := After(s, actions[..|actions| - 1]).value;
      var a, done := actions[|actions| - 1], Own(actions[..|actions| - 1], c);
      EndingRuns(s, actions[..|actions| - 1], c, t, n);
      RunsKeepInv(s, actions[..|actions| - 1]);
      if a.c == c {
        OwnEnding(m, a, t, n - done);
      } else {
        OthersEnding(m, a, c, t, n - done);
      }
    }
  }

  // No queue, wait list or core has the thread any more.
  ghost predicate Nowhere(s: State, t: nat) {
    && (forall c :: 0 <= c < |s.cores| ==> t !in s.cores[c].normal && t !in s.cores[c].idle)
    && (forall c :: 0 <= c < |s.cores| ==> StackOf(s.cores[c]) != Some(t) && Left(s.cores[c]) != Some(t))
    && (forall c :: 0 <= c < |s.cores| && HasHead(s.cores[c]) ==> s.cores[c].head != t)
    && (forall k :: 0 <= k < |s.sems| ==> t !in s.sems[k].waiting)
  }

  lemma FinishedIsNowhere(s: State, t: nat)
    requires Inv(s) && t in s.threads && s.threads[t].status == FINISHED
    ensures Nowhere(s, t)
  {
    assert ThreadOk(s, t);
    forall c | 0 <= c < |s.cores|
      ensures t !in s.cores[c].normal && t !in s.cores[c].idle
      ensures StackOf(s.cores[c]) != Some(t) && Left(s.cores[c]) != Some(t)
      ensures HasHead(s.cores[c]) ==> s.cores[c].head != t
    {
      assert CoreOk(s, c) && QueuesOk(s, c);
    }
    forall k | 0 <= k < |s.sems|
      ensures t !in s.sems[k].waiting
    {
      assert SemOk(s, k);
    }
  }

  // A thread that asks to exit is FINISHED, and nowhere, after four further steps of its core, whatever the other
  // cores do; and it stays so, for the run may be any longer.
  lemma ExitFinishes(s: State, a: Action, actions: seq<Action>)
    requires Reachable(s) && Can(s, a) && Asked(s, a) == Some(Exit)
    requires After(Next(s, a), actions).Some? && Own(actions, a.c) >= 4
    ensures var t, s' := s.cores[a.c].head, After(Next(s, a), actions).value;
            t in s.threads && t in s'.threads && s'.threads[t].status == FINISHED && Nowhere(s', t)
  {
    ReachableStates(s);
    var t, m := s.cores[a.c].head, Next(s, a);
    AskerExists(s, a);
    StatusSteps(s, a, t);
    LeavesStack(s, a);
    EndingBegins(s, a, m, t, 5);
    StepKeeps(s, a);
    EndingFinishes(m, a.c, t, 4, actions);
  }

  lemma EndingFinishes(s: State, c: nat, t: nat, n: nat, actions: seq<Action>)
    requires Inv(s) && Ending(s, c, t, n) && After(s, actions).Some? && Own(actions, c) >= n
    ensures var s' := After(s, actions).value;
            t in s'.threads && s'.threads[t].status == FINISHED && Nowhere(s', t)
  {
    EndingRuns(s, actions, c, t, n);
    RunsKeepInv(s, actions);
    Overdue(After(s, actions).value, c, t, n - Own(actions, c));
    FinishedIsNowhere(After(s, actions).value, t);
  }

  lemma Overdue(s: State, c: nat, t: nat, n: int)
    requires Ending(s, c, t, n) && n <= 0
    ensures s.threads[t].status == FINISHED
  {
  }

  // The same from the moment its core found the NORMAL queue empty: five further steps.
  lemma SeekingFinishes(s: State, c: nat, actions: seq<Action>)
    requires Reachable(s) && c < |s.cores| && s.cores[c].phase == Seeking(Exit)
    requires After(s, actions).Some? && Own(actions, c) >= 5
    ensures var t, s' := s.cores[c].head, After(s, actions).value;
            t in s.threads && t in s'.threads && s'.threads[t].status == FINISHED && Nowhere(s', t)
  {
    ReachableStates(s);
    assert CoreOk(s, c);
    EndingFinishes(s, c, s.cores[c].head, 5, actions);
  }

  // ---- Nothing else ends a thread ----

  // By one of the actions of the run the thread exits.
  ghost predicate Exited(s: State, actions: seq<Action>, t: nat) {
    actions != [] &&
    var n := |actions| - 1;
    Exited(s, actions[..n], t) || ExitsBy(After(s, actions[..n]), actions[n], t)
  }

  ghost predicate ExitsBy(m: Option<State>, a: Action, t: nat) {
    m.Some? && Can(m.value, a) && Leaves(m.value, a, t, Exit)
  }

  // Over any run: a thread that had not ended has ended afterwards if and only if it exited in between. Neither
  // yielding nor sleeping, nor anything that other cores do, finishes a thread.
  lemma {:induction false} OnlyExitEnds(s: State, actions: seq<Action>, t: nat)
    requires Inv(s) && After(s, actions).Some? && !Ended(s, t)
    ensures Ended(After(s, actions).value, t) <==> Exited(s, actions, t)
    decreases |actions|
  {
    if actions != [] {
      var n := |actions| - 1;
      var m := After(s, actions[..n]).value;
      OnlyExitEnds(s, actions[..n], t);
      RunsKeepInv(s, actions[..n]);
      if t in m.threads {
        ExitsEnd(m, actions[n], t);
      } else {
        NewIsReady(m, actions[n], t);
      }
    }
  }

  // Nothing keeps a running thread from what it may ask for: a NORMAL one may exit and, while its lock is free,
  // decrement a semaphore; any may create, yield to a waiting thread, and increment.
  lemma RunningMay(s: State, c: nat, k: nat, t: nat)
    requires Reachable(s) && c < |s.cores| && s.cores[c].phase == Running
    ensures s.cores[c].head in s.threads
    ensures s.threads[s.cores[c].head].rank == NORMAL ==> Can(s, TakeNormal(c, Exit)) || Can(s, FindNone(c, Exit))
    ensures s.cores[c].normal != [] ==> Can(s, TakeNormal(c, Yield))
    ensures k < |s.sems| && s.sems[k].lock == None ==> Can(s, VAcquire(c, k))
    ensures k < |s.sems| && s.sems[k].lock == None && s.threads[s.cores[c].head].rank == NORMAL ==> Can(s, PAcquire(c, k))
    ensures t !in s.threads ==> Can(s, Create(c, t, c, NORMAL)) && Can(s, Create(c, t, c, IDLE))
  {
    ReachableStates(s);
    assert CoreRefs(s, s.cores[c]);
    MayLeave(s, c);
    if t !in s.threads {
      MayCreate(s, c, t);
    }
    if k < |s.sems| && s.sems[k].lock == None {
      MayCount(s, c, k);
    }
  }

  lemma MayLeave(s: State, c: nat)
    requires Refs(s) && c < |s.cores| && s.cores[c].phase == Running && s.cores[c].head in s.threads
    ensures s.threads[s.cores[c].head].rank == NORMAL ==> Can(s, TakeNormal(c, Exit)) || Can(s, FindNone(c, Exit))
    ensures s.cores[c].normal != [] ==> Can(s, TakeNormal(c, Yield))
  {
  }

  lemma MayCreate(s: State, c: nat, t: nat)
    requires Refs(s) && c < |s.cores| && s.cores[c].phase == Running && t !in s.threads
    ensures Can(s, Create(c, t, c, NORMAL)) && Can(s, Create(c, t, c, IDLE))
  {
  }

  lemma MayCount(s: State, c: nat, k: nat)
    requires Refs(s) && c < |s.cores| && s.cores[c].phase == Running && s.cores[c].head in s.threads
    requires k < |s.sems| && s.sems[k].lock == None
    ensures Can(s, VAcquire(c, k)) && (s.threads[s.cores[c].head].rank == NORMAL ==> Can(s, PAcquire(c, k)))
  {
  }

  // ---- What creation asks for ----

  // A thread that is new after an action has just been created, with the core and the rank asked for.
  lemma NewIsReady(s: State, a: Action, t: nat)
    requires Inv(s) && Can(s, a) && t !in s.threads
    ensures !Leaves(s, a, t, Exit) && !Ended(Next(s, a), t)
    ensures t in Next(s, a).threads <==> a.Create? && a.t == t
    ensures a.Create? && a.t == t ==> Created(Next(s, a), t, a.cpu, a.rank)
  {
    if a.Create? {
    } else if SchedulerAction(a) {
      SchedulerMakesNone(s, a, t);
    } else if SwitchAction(a) {
      SwitchMakesNone(s, a, t);
    } else {
      SemaphoreMakesNone(s, a, t);
    }
  }

  predicate Created(s: State, t: nat, cpu: nat, rank: Rank) {
    t in s.threads && var th := s.threads[t]; th.cpu == cpu && th.rank == rank && th.status == READY && th.saved
  }

  lemma SchedulerMakesNone(s: State, a: Action, t: nat)
    requires Can(s, a) && t !in s.threads && SchedulerAction(a) && !a.Create?
    ensures t !in Next(s, a).threads && !Leaves(s, a, t, Exit)
  {
  }

  lemma SwitchMakesNone(s: State, a: Action, t: nat)
    requires Can(s, a) && t !in s.threads && SwitchAction(a)
    ensures t !in Next(s, a).threads && !Leaves(s, a, t, Exit)
  {
  }

  lemma SemaphoreMakesNone(s: State, a: Action, t: nat)
    requires Inv(s) && Can(s, a) && t !in s.threads && SemaphoreAction(a)
    ensures t !in Next(s, a).threads && !Leaves(s, a, t, Exit)
  {
  }

  // Over any run a thread keeps its core and its rank.
  lemma {:induction false} KeepsCoreAndRank(s: State, actions: seq<Action>, t: nat)
    requires Inv(s) && After(s, actions).Some? && t in s.threads
    ensures var s' := After(s, actions).value;
            t in s'.threads && s'.threads[t].cpu == s.threads[t].cpu && s'.threads[t].rank == s.threads[t].rank
    decreases |actions|
  {
    if actions != [] {
      KeepsCoreAndRank(s, actions[..|actions| - 1], t);
      RunsKeepInv(s, actions[..|actions| - 1]);
      StatusSteps(After(s, actions[..|actions| - 1]).value, actions[|actions| - 1], t);
    }
  }

  // A created thread has the core and the rank asked for, ever after: the only core ever on its stack is that one.
  lemma CreatedStays(s: State, a: Action, actions: seq<Action>, d: nat)
    requires Reachable(s) && Can(s, a) && a.Create? && After(Next(s, a), actions).Some?
    ensures var s' := After(Next(s, a), actions).value;
            && a.t in s'.threads && s'.threads[a.t].cpu == a.cpu && s'.threads[a.t].rank == a.rank
            && (d < |s'.cores| && StackOf(s'.cores[d]) == Some(a.t) ==> d == a.cpu)
  {
    ReachableStates(s);
    NewIsReady(s, a, a.t);
    StepKeeps(s, a);
    KeepsCoreAndRank(Next(s, a), actions, a.t);
    RunsKeepInv(Next(s, a), actions);
    var s' := After(Next(s, a), actions).value;
    if d < |s'.cores| && StackOf(s'.cores[d]) == Some(a.t) {
      assert CoreOk(s', d);
      assert ThreadOk(s', a.t);
    }
  }

  // ---- What semaphores start with, and count ----

  // How many of the actions are the beginning of a call of v on semaphore k.
  function Vs(actions: seq<Action>, k: nat): nat {
    if actions == [] then 0
    else Vs(actions[..|actions| - 1], k)
         + (var a := actions[|actions| - 1]; if a.VAcquire? && a.k == k then 1 else 0)
  }

  // The same for p.
  function Ps(actions: seq<Action>, k: nat): nat {
    if actions == [] then 0
    else Ps(actions[..|actions| - 1], k)
         + (var a := actions[|actions| - 1]; if a.PAcquire? && a.k == k then 1 else 0)
  }

  // The counter, as if the call that has just taken the lock had already counted.
  function Balance(s: State, k: nat): int
    requires k < |s.sems|
  {
    var sem := s.sems[k];
    if sem.lock.Some? && sem.lock.value < |s.cores| then
      var phase := s.cores[sem.lock.value].phase;
      sem.value + (if phase == VLocked(k) then 1 else 0) - (if phase == PLocked(k) then 1 else 0)
    else sem.value
  }

  ghost predicate Balanced(s: State, a: Action, s': State, k: nat) {
    && k < |s.sems| == |s'.sems| && s'.sems[k].initial == s.sems[k].initial
    && Balance(s', k) == Balance(s, k) + (if a.VAcquire? && a.k == k then 1 else 0) - (if a.PAcquire? && a.k == k then 1 else 0)
  }

  // The semaphore as a core without its lock leaves it, and the core that has the lock.
  ghost predicate SemKept(s: State, s': State, k: nat) {
    && k < |s.sems| == |s'.sems| && s'.sems[k] == s.sems[k]
    && (s.sems[k].lock.Some? ==> s.sems[k].lock.value < |s.cores| && SameCore(s, s', s.sems[k].lock.value))
  }

  lemma BalanceSteps(s: State, a: Action, k: nat)
    requires Inv(s) && Can(s, a) && k < |s.sems|
    ensures Balanced(s, a, Next(s, a), k)
  {
    assert SemOk(s, k) && CoreOk(s, a.c);
    if s.sems[k].lock == Some(a.c) {
      HolderBalances(s, a, k);
    } else if (a.PAcquire? || a.VAcquire?) && a.k == k {
      AcquireBalances(s, a, k);
    } else {
      OutsiderKeeps(s, a, k);
      if s.sems[k].lock.Some? {
        OthersLeaveCore(s, a, s.sems[k].lock.value);
      }
      KeptBalances(s, a, Next(s, a), k);
    }
  }

  lemma KeptBalances(s: State, a: Action, s': State, k: nat)
    requires SemKept(s, s', k) && !((a.PAcquire? || a.VAcquire?) && a.k == k)
    ensures Balanced(s, a, s', k)
  {
  }

  lemma AcquireBalances(s: State, a: Action, k: nat)
    requires Can(s, a) && (a.PAcquire? || a.VAcquire?) && a.k == k
    ensures Balanced(s, a, Next(s, a), k)
  {
  }

  lemma HolderBalances(s: State, a: Action, k: nat)
    requires Inv(s) && Can(s, a) && k < |s.sems| && s.sems[k].lock == Some(a.c)
    ensures Balanced(s, a, Next(s, a), k)
  {
    assert SemOk(s, k) && CoreOk(s, a.c);
    if SchedulerAction(a) {
      HolderSchedulerBalances(s, a, k);
    } else if SwitchAction(a) {
      HolderSwitchBalances(s, a, k);
    } else {
      HolderSemaphoreBalances(s, a, k);
    }
  }

  lemma HolderSchedulerBalances(s: State, a: Action, k: nat)
    requires Can(s, a) && k < |s.sems| && s.sems[k].lock == Some(a.c) && SchedulerAction(a) && HoldsLock(s.cores[a.c], k)
    ensures Balanced(s, a, Next(s, a), k)
  {
  }

  lemma HolderSwitchBalances(s: State, a: Action, k: nat)
    requires Can(s, a) && k < |s.sems| && s.sems[k].lock == Some(a.c) && SwitchAction(a) && HoldsLock(s.cores[a.c], k)
    ensures Balanced(s, a, Next(s, a), k)
  {
  }

  lemma HolderSemaphoreBalances(s: State, a: Action, k: nat)
    requires Can(s, a) && k < |s.sems| && s.sems[k].lock == Some(a.c) && SemaphoreAction(a) && HoldsLock(s.cores[a.c], k)
    ensures Balanced(s, a, Next(s, a), k)
  {
  }

  // A core without lock k, and not taking it, leaves semaphore k alone.
  lemma OutsiderKeeps(s: State, a: Action, k: nat)
    requires Can(s, a) && k < |s.sems| && CoreOk(s, a.c) && s.sems[k].lock != Some(a.c)
    requires !((a.PAcquire? || a.VAcquire?) && a.k == k)
    ensures var s' := Next(s, a); |s'.sems| == |s.sems| && s'.sems[k] == s.sems[k]
  {
    if SchedulerAction(a) {
      SchedulerKeeps(s, a, k);
    } else if SwitchAction(a) {
      SwitchKeeps(s, a, k);
    } else {
      SemaphoreKeeps(s, a, k);
    }
  }

  lemma SchedulerKeeps(s: State, a: Action, k: nat)
    requires Can(s, a) && k < |s.sems| && SchedulerAction(a)
    ensures var s' := Next(s, a); |s'.sems| == |s.sems| && s'.sems[k] == s.sems[k]
  {
  }

  lemma SwitchKeeps(s: State, a: Action, k: nat)
    requires Can(s, a) && k < |s.sems| && CoreOk(s, a.c) && s.sems[k].lock != Some(a.c) && SwitchAction(a)
    ensures var s' := Next(s, a); |s'.sems| == |s.sems| && s'.sems[k] == s.sems[k]
  {
  }

  lemma SemaphoreKeeps(s: State, a: Action, k: nat)
    requires Can(s, a) && k < |s.sems| && CoreOk(s, a.c) && s.sems[k].lock != Some(a.c) && SemaphoreAction(a)
    requires !((a.PAcquire? || a.VAcquire?) && a.k == k)
    ensures var s' := Next(s, a); |s'.sems| == |s.sems| && s'.sems[k] == s.sems[k]
  {
  }

  lemma {:induction false} BalanceRuns(s: State, actions: seq<Action>, k: nat)
    requires Inv(s) && After(s, actions).Some? && k < |s.sems|
    ensures var s' := After(s, actions).value;
            && |s'.sems| == |s.sems| && s'.sems[k].initial == s.sems[k].initial
            && Balance(s', k) == Balance(s, k) + Vs(actions, k) - Ps(actions, k)
    decreases |actions|
  {
    if actions != [] {
      BalanceRuns(s, actions[..|actions| - 1], k);
      RunsKeepInv(s, actions[..|actions| - 1]);
      BalanceSteps(After(s, actions[..|actions| - 1]).value, actions[|actions| - 1], k);
    }
  }

  // Semaphore k starts at the value asked for; whenever its lock is free, its counter is that value plus the
  // calls of v minus the calls of p so far, by all cores in any interleaving.
  lemma CounterFromStart(n: nat, values: seq<nat>, actions: seq<Action>, k: nat)
    requires After(Initial(n, values), actions).Some? && k < |values|
    ensures var s := After(Initial(n, values), actions).value;
            && |s.sems| == |values| && s.sems[k].initial == values[k]
            && (s.sems[k].lock == None ==> s.sems[k].value == values[k] + Vs(actions, k) - Ps(actions, k))
  {
    InitialInv(n, values);
    BalanceRuns(Initial(n, values), actions, k);
  }
}
