// Every step keeps the invariant.

module DispatchSteps {
  import opened Options
  import opened Dispatch
  import opened DispatchInvariant

  // The thread that a step of an epilogue deals with.
  lemma LeftThread(s: State, c: nat)
    requires Inv(s) && c < |s.cores| && (s.cores[c].phase == Switched || s.cores[c].phase == Retiring)
    ensures s.cores[c].previous.Some? && s.cores[c].previous.value in s.threads
    ensures var p := s.cores[c].previous.value;
            && ThreadOk(s, p) && s.threads[p].cpu == c
            && (s.threads[p].status == READY || s.threads[p].status == WAITING || s.threads[p].status == FINISHING)
  {
    assert CoreOk(s, c);
    assert ThreadOk(s, s.cores[c].previous.value);
  }

  // Only the core with the lock has a thread on the wait list that it has not left.
  lemma OneAtTheList(s: State, c: nat, k: nat)
    requires Inv(s) && k < |s.sems| && s.sems[k].lock == Some(c)
    ensures forall d :: 0 <= d < |s.cores| && (HeadList(s.cores[d]) == Some(k) || LeftLock(s.cores[d]) == Some(k)) ==> d == c
  {
    forall d | 0 <= d < |s.cores| && (HeadList(s.cores[d]) == Some(k) || LeftLock(s.cores[d]) == Some(k))
      ensures d == c
    {
      assert CoreOk(s, d);
    }
  }

  // The first waiter of a semaphore under another call's lock is off its core.
  lemma WaiterIsAsleep(s: State, c: nat)
    requires Inv(s) && c < |s.cores| && s.cores[c].phase.VWaking?
    ensures s.cores[c].phase.k < |s.sems| && s.sems[s.cores[c].phase.k].waiting != [] && Asleep(s, s.cores[c].phase.k)
  {
    assert CoreOk(s, c);
    var k := s.cores[c].phase.k;
    assert SemOk(s, k);
    var t := s.sems[k].waiting[0];
    assert t in s.sems[k].waiting && ThreadOk(s, t);
    assert t < |s.cores| ==> IdleOk(s, t);
    OneAtTheList(s, c, k);
  }

  // The thread a core is about to insert.
  lemma InsertingThread(s: State, c: nat, ph: Phase, t: nat)
    requires Inv(s) && c < |s.cores| && Inserting(s, c, ph, t)
    ensures CoreOk(s, c) && ThreadOk(s, t) && s.threads[t].cpu < |s.cores| && !s.threads[t].owner.InQueue?
    ensures Inserted(s, Insert(SetPhase(s, c, ph), t), c, ph, t)
  {
    assert CoreOk(s, c) && ThreadOk(s, t);
    InsertIs(s, c, ph, t);
  }

  // The next thread, and why it is wanted.
  lemma AskingNormal(s: State, c: nat, why: Why)
    requires Inv(s) && c < |s.cores| && CoreOk(s, c) && MayAsk(s, c, why) && QueuesOk(s, c) && s.cores[c].normal != []
    ensures Asking(s, c, why, s.cores[c].normal[0]) && Replaced(s, DoTakeNormal(s, c, why), c, why, s.cores[c].normal[0])
  {
    assert QueuesOk(s, c);
    assert s.cores[c].normal[0] in s.cores[c].normal;
    assert ThreadOk(s, s.cores[c].normal[0]);
    TakeIs(s, c, why);
    if why != Start {
      assert ThreadOk(s, s.cores[c].head);
    }
  }

  lemma AskingIdle(s: State, c: nat)
    requires Inv(s) && c < |s.cores| && CoreOk(s, c) && s.cores[c].phase.Seeking? && QueuesOk(s, c) && s.cores[c].idle != []
    ensures Asking(s, c, s.cores[c].phase.why, s.cores[c].idle[0])
    ensures Replaced(s, DoTakeIdle(s, c), c, s.cores[c].phase.why, s.cores[c].idle[0])
  {
    assert QueuesOk(s, c);
    assert s.cores[c].idle[0] in s.cores[c].idle;
    assert ThreadOk(s, s.cores[c].idle[0]);
    TakeIdleIs(s, c);
    if s.cores[c].phase.why != Start {
      assert ThreadOk(s, s.cores[c].head);
    }
  }

  // The epilogue that takes a thread out of the count.
  predicate Discounts(s: State, a: Action)
    requires Refs(s) && Enabled(s, a)
  {
    a.Epilogue? && s.threads[s.cores[a.c].previous.value].status == FINISHING
  }

  ghost predicate CountStays(s: State, a: Action, u: nat)
    requires Refs(s) && Enabled(s, a) && u in s.threads
  {
    var s' := Next(s, a);
    u in s'.threads
    && (Uncounted(s', s'.threads[u].owner)
        <==> Uncounted(s, s.threads[u].owner) || (Discounts(s, a) && u == s.cores[a.c].previous.value))
  }

  lemma SchedulerThread(s: State, a: Action, u: nat)
    requires Inv(s) && Refs(s) && Enabled(s, a) && u in s.threads && SchedulerAction(a)
    requires CoreOk(s, a.c) && QueuesOk(s, a.c) && ThreadOk(s, u)
    ensures u in Next(s, a).threads && ThreadOk(Next(s, a), u)
    ensures CountStays(s, a, u)
  {
    var c := a.c;
    match a {
      case Create(_, t, cpu, rank) => CreateThread(s, c, t, cpu, rank, u);
      case Publish(_) =>
        var ph := if s.cores[c].phase.boot then Booting else Running;
        InsertingThread(s, c, ph, s.cores[c].phase.t);
        InsertThread(s, Next(s, a), c, ph, s.cores[c].phase.t, u);
      case TakeNormal(_, why) =>
        AskingNormal(s, c, why);
        ReplaceThread(s, Next(s, a), c, why, s.cores[c].normal[0], u);
      case FindNone(_, why) => SeekThread(s, c, why, u);
      case TakeIdle(_) =>
        AskingIdle(s, c);
        ReplaceThread(s, Next(s, a), c, s.cores[c].phase.why, s.cores[c].idle[0], u);
    }
  }

  lemma SwitchingThread(s: State, a: Action, u: nat)
    requires Inv(s) && Refs(s) && Enabled(s, a) && u in s.threads && SwitchAction(a)
    requires CoreOk(s, a.c) && ThreadOk(s, u)
    ensures u in Next(s, a).threads && ThreadOk(Next(s, a), u)
    ensures CountStays(s, a, u)
  {
    var c := a.c;
    match a {
      case Mark(_) => MarkThread(s, c, u);
      case Switch(_) => SwitchThread(s, c, u);
      case Epilogue(_) => EpilogueThread(s, c, u);
      case Retire(_) => LeftThread(s, c); RetireThread(s, c, u);
    }
  }

  lemma SemaphoreThread(s: State, a: Action, u: nat)
    requires Inv(s) && Refs(s) && Enabled(s, a) && u in s.threads && SemaphoreAction(a)
    requires CoreOk(s, a.c) && ThreadOk(s, u)
    ensures u in Next(s, a).threads && ThreadOk(Next(s, a), u)
    ensures CountStays(s, a, u)
  {
    var c := a.c;
    match a {
      case PAcquire(_, k) => AcquireThread(s, c, k, PLocked(k), u);
      case PDecrement(_) => DecrementThread(s, c, u);
      case PEnlist(_) =>
        assert ThreadOk(s, s.cores[c].head) && SemOk(s, s.cores[c].phase.k);
        EnlistThread(s, c, u);
      case PRelease(_) => ReleaseThread(s, c, s.cores[c].phase.k, u);
      case VAcquire(_, k) => AcquireThread(s, c, k, VLocked(k), u);
      case VIncrement(_) => IncrementThread(s, c, u);
      case VWake(_) =>
        WaiterIsAsleep(s, c);
        assert SemOk(s, s.cores[c].phase.k);
        WakeThread(s, c, u);
      case VPublish(_) =>
        var ph := VUnlocking(s.cores[c].phase.k);
        InsertingThread(s, c, ph, s.cores[c].phase.t);
        InsertThread(s, Next(s, a), c, ph, s.cores[c].phase.t, u);
      case VRelease(_) => ReleaseThread(s, c, s.cores[c].phase.k, u);
    }
  }

  lemma EpilogueThread(s: State, c: nat, u: nat)
    requires Inv(s) && c < |s.cores| && CoreOk(s, c) && s.cores[c].phase == Switched
    requires u in s.threads && ThreadOk(s, u) && s.threads[s.cores[c].previous.value].cpu < |s.cores| && Refs(s)
    ensures u in DoEpilogue(s, c).threads && ThreadOk(DoEpilogue(s, c), u)
    ensures CountStays(s, Epilogue(c), u)
  {
    LeftThread(s, c);
    var p := s.cores[c].previous.value;
    match s.threads[p].status {
      case READY =>
        InsertingThread(s, c, Running, p);
        InsertThread(s, DoEpilogue(s, c), c, Running, p, u);
      case WAITING => UnlockThread(s, c, u);
      case FINISHING => UncountThread(s, c, u);
      case _ =>
    }
  }

  lemma EpilogueCore(s: State, c: nat, d: nat)
    requires Inv(s) && c < |s.cores| && CoreOk(s, c) && s.cores[c].phase == Switched
    requires d < |s.cores| && CoreOk(s, d) && s.threads[s.cores[c].previous.value].cpu < |s.cores|
    ensures |DoEpilogue(s, c).cores| == |s.cores| && CoreOk(DoEpilogue(s, c), d)
  {
    LeftThread(s, c);
    var p := s.cores[c].previous.value;
    match s.threads[p].status {
      case READY =>
        InsertingThread(s, c, Running, p);
        InsertCore(s, DoEpilogue(s, c), c, Running, p, d);
      case WAITING => UnlockCore(s, c, d);
      case FINISHING => UncountCore(s, c, d);
      case _ =>
    }
  }

  lemma SchedulerCore(s: State, a: Action, d: nat)
    requires Inv(s) && Refs(s) && Enabled(s, a) && SchedulerAction(a)
    requires CoreOk(s, a.c) && QueuesOk(s, a.c) && d < |s.cores| && CoreOk(s, d)
    ensures |Next(s, a).cores| == |s.cores| && CoreOk(Next(s, a), d)
  {
    var c := a.c;
    match a {
      case Create(_, t, cpu, rank) => CreateCore(s, c, t, cpu, rank, d);
      case Publish(_) =>
        var ph := if s.cores[c].phase.boot then Booting else Running;
        InsertingThread(s, c, ph, s.cores[c].phase.t);
        InsertCore(s, Next(s, a), c, ph, s.cores[c].phase.t, d);
      case TakeNormal(_, why) =>
        AskingNormal(s, c, why);
        ReplaceCore(s, Next(s, a), c, why, s.cores[c].normal[0], d);
      case FindNone(_, why) => SeekCore(s, c, why, d);
      case TakeIdle(_) =>
        AskingIdle(s, c);
        ReplaceCore(s, Next(s, a), c, s.cores[c].phase.why, s.cores[c].idle[0], d);
    }
  }

  lemma SwitchingCore(s: State, a: Action, d: nat)
    requires Inv(s) && Refs(s) && Enabled(s, a) && SwitchAction(a)
    requires CoreOk(s, a.c) && d < |s.cores| && CoreOk(s, d)
    ensures |Next(s, a).cores| == |s.cores| && CoreOk(Next(s, a), d)
  {
    var c := a.c;
    match a {
      case Mark(_) => MarkCore(s, c, d);
      case Switch(_) => SwitchCore(s, c, d);
      case Epilogue(_) => EpilogueCore(s, c, d);
      case Retire(_) => LeftThread(s, c); RetireCore(s, c, d);
    }
  }

  lemma SemaphoreCore(s: State, a: Action, d: nat)
    requires Inv(s) && Refs(s) && Enabled(s, a) && SemaphoreAction(a)
    requires CoreOk(s, a.c) && d < |s.cores| && CoreOk(s, d)
    ensures |Next(s, a).cores| == |s.cores| && CoreOk(Next(s, a), d)
  {
    var c := a.c;
    match a {
      case PAcquire(_, k) => AcquireCore(s, c, k, PLocked(k), d);
      case PDecrement(_) => DecrementCore(s, c, d);
      case PEnlist(_) =>
        assert ThreadOk(s, s.cores[c].head) && SemOk(s, s.cores[c].phase.k);
        EnlistCore(s, c, d);
      case PRelease(_) => ReleaseCore(s, c, s.cores[c].phase.k, d);
      case VAcquire(_, k) => AcquireCore(s, c, k, VLocked(k), d);
      case VIncrement(_) => IncrementCore(s, c, d);
      case VWake(_) =>
        WaiterIsAsleep(s, c);
        assert SemOk(s, s.cores[c].phase.k);
        WakeCore(s, c, d);
      case VPublish(_) =>
        var ph := VUnlocking(s.cores[c].phase.k);
        InsertingThread(s, c, ph, s.cores[c].phase.t);
        InsertCore(s, Next(s, a), c, ph, s.cores[c].phase.t, d);
      case VRelease(_) => ReleaseCore(s, c, s.cores[c].phase.k, d);
    }
  }

  lemma EpilogueQueues(s: State, c: nat, d: nat)
    requires Inv(s) && c < |s.cores| && CoreOk(s, c) && s.cores[c].phase == Switched
    requires d < |s.cores| && QueuesOk(s, d) && s.threads[s.cores[c].previous.value].cpu < |s.cores|
    ensures |DoEpilogue(s, c).cores| == |s.cores| && QueuesOk(DoEpilogue(s, c), d)
  {
    LeftThread(s, c);
    var p := s.cores[c].previous.value;
    match s.threads[p].status {
      case READY =>
        InsertingThread(s, c, Running, p);
        InsertQueues(s, DoEpilogue(s, c), c, Running, p, d);
      case WAITING => UnlockQueues(s, c, d);
      case FINISHING => UncountQueues(s, c, d);
      case _ =>
    }
  }

  lemma SchedulerQueues(s: State, a: Action, d: nat)
    requires Inv(s) && Refs(s) && Enabled(s, a) && SchedulerAction(a)
    requires CoreOk(s, a.c) && QueuesOk(s, a.c) && d < |s.cores| && QueuesOk(s, d)
    ensures |Next(s, a).cores| == |s.cores| && QueuesOk(Next(s, a), d)
  {
    var c := a.c;
    match a {
      case Create(_, t, cpu, rank) => CreateQueues(s, c, t, cpu, rank, d);
      case Publish(_) =>
        var ph := if s.cores[c].phase.boot then Booting else Running;
        InsertingThread(s, c, ph, s.cores[c].phase.t);
        InsertQueues(s, Next(s, a), c, ph, s.cores[c].phase.t, d);
      case TakeNormal(_, why) => TakeQueues(s, c, why, d);
      case FindNone(_, why) => SeekQueues(s, c, why, d);
      case TakeIdle(_) => TakeIdleQueues(s, c, d);
    }
  }

  lemma SwitchingQueues(s: State, a: Action, d: nat)
    requires Inv(s) && Refs(s) && Enabled(s, a) && SwitchAction(a)
    requires CoreOk(s, a.c) && d < |s.cores| && QueuesOk(s, d)
    ensures |Next(s, a).cores| == |s.cores| && QueuesOk(Next(s, a), d)
  {
    var c := a.c;
    match a {
      case Mark(_) => MarkQueues(s, c, d);
      case Switch(_) => SwitchQueues(s, c, d);
      case Epilogue(_) => EpilogueQueues(s, c, d);
      case Retire(_) => LeftThread(s, c); RetireQueues(s, c, d);
    }
  }

  lemma SemaphoreQueues(s: State, a: Action, d: nat)
    requires Inv(s) && Refs(s) && Enabled(s, a) && SemaphoreAction(a)
    requires CoreOk(s, a.c) && d < |s.cores| && QueuesOk(s, d)
    ensures |Next(s, a).cores| == |s.cores| && QueuesOk(Next(s, a), d)
  {
    var c := a.c;
    match a {
      case PAcquire(_, k) => AcquireQueues(s, c, k, PLocked(k), d);
      case PDecrement(_) => DecrementQueues(s, c, d);
      case PEnlist(_) =>
        assert ThreadOk(s, s.cores[c].head) && SemOk(s, s.cores[c].phase.k);
        EnlistQueues(s, c, d);
      case PRelease(_) => ReleaseQueues(s, c, s.cores[c].phase.k, d);
      case VAcquire(_, k) => AcquireQueues(s, c, k, VLocked(k), d);
      case VIncrement(_) => IncrementQueues(s, c, d);
      case VWake(_) =>
        WaiterIsAsleep(s, c);
        assert SemOk(s, s.cores[c].phase.k);
        WakeQueues(s, c, d);
      case VPublish(_) =>
        var ph := VUnlocking(s.cores[c].phase.k);
        InsertingThread(s, c, ph, s.cores[c].phase.t);
        InsertQueues(s, Next(s, a), c, ph, s.cores[c].phase.t, d);
      case VRelease(_) => ReleaseQueues(s, c, s.cores[c].phase.k, d);
    }
  }

  lemma EpilogueSem(s: State, c: nat, j: nat)
    requires Inv(s) && c < |s.cores| && CoreOk(s, c) && s.cores[c].phase == Switched
    requires j < |s.sems| && SemOk(s, j) && s.threads[s.cores[c].previous.value].cpu < |s.cores|
    ensures |DoEpilogue(s, c).sems| == |s.sems| && SemOk(DoEpilogue(s, c), j)
  {
    LeftThread(s, c);
    var p := s.cores[c].previous.value;
    match s.threads[p].status {
      case READY =>
        InsertingThread(s, c, Running, p);
        InsertSem(s, DoEpilogue(s, c), c, Running, p, j);
      case WAITING => UnlockSem(s, c, j);
      case FINISHING => UncountSem(s, c, j);
      case _ =>
    }
  }

  lemma SchedulerSem(s: State, a: Action, j: nat)
    requires Inv(s) && Refs(s) && Enabled(s, a) && SchedulerAction(a)
    requires CoreOk(s, a.c) && QueuesOk(s, a.c) && j < |s.sems| && SemOk(s, j)
    ensures |Next(s, a).sems| == |s.sems| && SemOk(Next(s, a), j)
  {
    var c := a.c;
    match a {
      case Create(_, t, cpu, rank) => CreateSem(s, c, t, cpu, rank, j);
      case Publish(_) =>
        var ph := if s.cores[c].phase.boot then Booting else Running;
        InsertingThread(s, c, ph, s.cores[c].phase.t);
        InsertSem(s, Next(s, a), c, ph, s.cores[c].phase.t, j);
      case TakeNormal(_, why) =>
        AskingNormal(s, c, why);
        ReplaceSem(s, Next(s, a), c, why, s.cores[c].normal[0], j);
      case FindNone(_, why) => SeekSem(s, c, why, j);
      case TakeIdle(_) =>
        AskingIdle(s, c);
        ReplaceSem(s, Next(s, a), c, s.cores[c].phase.why, s.cores[c].idle[0], j);
    }
  }

  lemma SwitchingSem(s: State, a: Action, j: nat)
    requires Inv(s) && Refs(s) && Enabled(s, a) && SwitchAction(a)
    requires CoreOk(s, a.c) && j < |s.sems| && SemOk(s, j)
    ensures |Next(s, a).sems| == |s.sems| && SemOk(Next(s, a), j)
  {
    var c := a.c;
    match a {
      case Mark(_) => MarkSem(s, c, j);
      case Switch(_) => SwitchSem(s, c, j);
      case Epilogue(_) => EpilogueSem(s, c, j);
      case Retire(_) => LeftThread(s, c); RetireSem(s, c, j);
    }
  }

  lemma SemaphoreSem(s: State, a: Action, j: nat)
    requires Inv(s) && Refs(s) && Enabled(s, a) && SemaphoreAction(a)
    requires CoreOk(s, a.c) && j < |s.sems| && SemOk(s, j)
    ensures |Next(s, a).sems| == |s.sems| && SemOk(Next(s, a), j)
  {
    var c := a.c;
    match a {
      case PAcquire(_, k) => AcquireSem(s, c, k, PLocked(k), j);
      case PDecrement(_) => DecrementSem(s, c, j);
      case PEnlist(_) =>
        assert ThreadOk(s, s.cores[c].head) && SemOk(s, s.cores[c].phase.k);
        EnlistSem(s, c, j);
      case PRelease(_) => ReleaseSem(s, c, s.cores[c].phase.k, j);
      case VAcquire(_, k) => AcquireSem(s, c, k, VLocked(k), j);
      case VIncrement(_) => IncrementSem(s, c, j);
      case VWake(_) =>
        WaiterIsAsleep(s, c);
        assert SemOk(s, s.cores[c].phase.k);
        WakeSem(s, c, j);
      case VPublish(_) =>
        var ph := VUnlocking(s.cores[c].phase.k);
        InsertingThread(s, c, ph, s.cores[c].phase.t);
        InsertSem(s, Next(s, a), c, ph, s.cores[c].phase.t, j);
      case VRelease(_) => ReleaseSem(s, c, s.cores[c].phase.k, j);
    }
  }

  // ---- One step ----

  lemma StepThread(s: State, a: Action, u: nat)
    requires Inv(s) && Refs(s) && Enabled(s, a) && u in s.threads
    ensures u in Next(s, a).threads && ThreadOk(Next(s, a), u) && CountStays(s, a, u)
  {
    assert CoreOk(s, a.c) && QueuesOk(s, a.c) && ThreadOk(s, u);
    if SchedulerAction(a) {
      SchedulerThread(s, a, u);
    } else if SwitchAction(a) {
      SwitchingThread(s, a, u);
    } else {
      SemaphoreThread(s, a, u);
    }
  }

  lemma StepCore(s: State, a: Action, d: nat)
    requires Inv(s) && Refs(s) && Enabled(s, a) && d < |s.cores|
    ensures |Next(s, a).cores| == |s.cores| && CoreOk(Next(s, a), d) && QueuesOk(Next(s, a), d)
  {
    assert CoreOk(s, a.c) && QueuesOk(s, a.c) && CoreOk(s, d) && QueuesOk(s, d);
    if SchedulerAction(a) {
      SchedulerCore(s, a, d);
      SchedulerQueues(s, a, d);
    } else if SwitchAction(a) {
      SwitchingCore(s, a, d);
      SwitchingQueues(s, a, d);
    } else {
      SemaphoreCore(s, a, d);
      SemaphoreQueues(s, a, d);
    }
  }

  lemma StepSem(s: State, a: Action, j: nat)
    requires Inv(s) && Refs(s) && Enabled(s, a) && j < |s.sems|
    ensures |Next(s, a).sems| == |s.sems| && SemOk(Next(s, a), j)
  {
    assert CoreOk(s, a.c) && QueuesOk(s, a.c) && SemOk(s, j);
    if SchedulerAction(a) {
      SchedulerSem(s, a, j);
    } else if SwitchAction(a) {
      SwitchingSem(s, a, j);
    } else {
      SemaphoreSem(s, a, j);
    }
  }

  lemma SchedulerSameShape(s: State, a: Action)
    requires Refs(s) && Enabled(s, a) && SchedulerAction(a)
    ensures |SchedulerNext(s, a).sems| == |s.sems| && |SchedulerNext(s, a).cores| == |s.cores|
  {
  }

  lemma SwitchSameShape(s: State, a: Action)
    requires Refs(s) && Enabled(s, a) && SwitchAction(a)
    ensures |SwitchNext(s, a).sems| == |s.sems| && |SwitchNext(s, a).cores| == |s.cores|
  {
  }

  lemma SemaphoreSameShape(s: State, a: Action)
    requires Refs(s) && Enabled(s, a) && SemaphoreAction(a)
    ensures |SemaphoreNext(s, a).sems| == |s.sems| && |SemaphoreNext(s, a).cores| == |s.cores|
  {
  }

  lemma SameShape(s: State, a: Action)
    requires Refs(s) && Enabled(s, a)
    ensures |Next(s, a).sems| == |s.sems| && |Next(s, a).cores| == |s.cores|
  {
    if SchedulerAction(a) {
      SchedulerSameShape(s, a);
    } else if SwitchAction(a) {
      SwitchSameShape(s, a);
    } else {
      SemaphoreSameShape(s, a);
    }
  }

  lemma StepThreads(s: State, a: Action)
    requires Inv(s) && Refs(s) && Enabled(s, a)
    ensures AllThreads(Next(s, a))
    ensures forall u :: u in s.threads ==> CountStays(s, a, u)
  {
    var s' := Next(s, a);
    SameKeys(s, a);
    forall u | u in s.threads
      ensures ThreadOk(s', u) && CountStays(s, a, u)
    {
      StepThread(s, a, u);
    }
    if a.Create? {
      NewThread(s, a);
    }
  }

  lemma StepCores(s: State, a: Action)
    requires Inv(s) && Refs(s) && Enabled(s, a)
    ensures AllCores(Next(s, a)) && AllQueues(Next(s, a))
  {
    var s' := Next(s, a);
    SameShape(s, a);
    forall d | 0 <= d < |s'.cores|
      ensures CoreOk(s', d) && QueuesOk(s', d)
    {
      StepCore(s, a, d);
    }
  }

  lemma StepSems(s: State, a: Action)
    requires Inv(s) && Refs(s) && Enabled(s, a)
    ensures AllSems(Next(s, a))
  {
    var s' := Next(s, a);
    SameShape(s, a);
    forall j | 0 <= j < |s'.sems|
      ensures SemOk(s', j)
    {
      StepSem(s, a, j);
    }
  }

  lemma StepIdle(s: State, a: Action)
    requires AllIdle(s) && Refs(s) && Enabled(s, a)
    ensures AllIdle(Next(s, a))
  {
    SameShape(s, a);
    SameKeys(s, a);
    forall d | 0 <= d < |s.cores|
      ensures IdleOk(Next(s, a), d)
    {
      assert IdleOk(s, d);
      SameCriterion(s, a, d);
    }
  }

  lemma SchedulerSameKeys(s: State, a: Action)
    requires Refs(s) && Enabled(s, a) && SchedulerAction(a)
    ensures forall u :: u in SchedulerNext(s, a).threads <==> u in s.threads || (a.Create? && u == a.t)
  {
  }

  lemma SwitchSameKeys(s: State, a: Action)
    requires Refs(s) && Enabled(s, a) && SwitchAction(a)
    ensures forall u :: u in SwitchNext(s, a).threads <==> u in s.threads || (a.Create? && u == a.t)
  {
  }

  lemma SemaphoreSameKeys(s: State, a: Action)
    requires Refs(s) && Enabled(s, a) && SemaphoreAction(a)
    ensures forall u :: u in SemaphoreNext(s, a).threads <==> u in s.threads || (a.Create? && u == a.t)
  {
  }

  // Threads are never forgotten; only creation adds one.
  lemma SameKeys(s: State, a: Action)
    requires Refs(s) && Enabled(s, a)
    ensures forall u :: u in Next(s, a).threads <==> u in s.threads || (a.Create? && u == a.t)
  {
    if SchedulerAction(a) {
      SchedulerSameKeys(s, a);
    } else if SwitchAction(a) {
      SwitchSameKeys(s, a);
    } else {
      SemaphoreSameKeys(s, a);
    }
  }

  lemma SchedulerSameCriterion(s: State, a: Action, u: nat)
    requires Refs(s) && Enabled(s, a) && SchedulerAction(a) && u in s.threads && u in Next(s, a).threads
    ensures SchedulerNext(s, a).threads[u].cpu == s.threads[u].cpu && SchedulerNext(s, a).threads[u].rank == s.threads[u].rank
  {
  }

  lemma SwitchSameCriterion(s: State, a: Action, u: nat)
    requires Refs(s) && Enabled(s, a) && SwitchAction(a) && u in s.threads && u in Next(s, a).threads
    ensures SwitchNext(s, a).threads[u].cpu == s.threads[u].cpu && SwitchNext(s, a).threads[u].rank == s.threads[u].rank
  {
  }

  lemma SemaphoreSameCriterion(s: State, a: Action, u: nat)
    requires Refs(s) && Enabled(s, a) && SemaphoreAction(a) && u in s.threads && u in Next(s, a).threads
    ensures SemaphoreNext(s, a).threads[u].cpu == s.threads[u].cpu && SemaphoreNext(s, a).threads[u].rank == s.threads[u].rank
  {
  }

  // They keep their core and rank.
  lemma SameCriterion(s: State, a: Action, u: nat)
    requires Refs(s) && Enabled(s, a) && u in s.threads && u in Next(s, a).threads
    ensures Next(s, a).threads[u].cpu == s.threads[u].cpu && Next(s, a).threads[u].rank == s.threads[u].rank
  {
    if SchedulerAction(a) {
      SchedulerSameCriterion(s, a, u);
    } else if SwitchAction(a) {
      SwitchSameCriterion(s, a, u);
    } else {
      SemaphoreSameCriterion(s, a, u);
    }
  }

  lemma NewThread(s: State, a: Action)
    requires Refs(s) && Enabled(s, a) && a.Create?
    requires AllIdle(s)
    ensures a.t in Next(s, a).threads && ThreadOk(Next(s, a), a.t)
    ensures !Uncounted(Next(s, a), Next(s, a).threads[a.t].owner)
  {
    assert a.t < |s.cores| ==> IdleOk(s, a.t);
  }

  lemma CreateCount(s: State, a: Action)
    requires Inv(s) && Refs(s) && Enabled(s, a) && a.Create?
    requires forall u :: u in s.threads ==> CountStays(s, a, u)
    ensures |Counted(Next(s, a))| == |Counted(s)| + 1
  {
    SameKeys(s, a);
    NewThread(s, a);
    assert Counted(Next(s, a)) == Counted(s) + {a.t};
  }

  lemma DiscountCount(s: State, a: Action)
    requires Inv(s) && Refs(s) && Enabled(s, a) && Discounts(s, a)
    requires forall u :: u in s.threads ==> CountStays(s, a, u)
    ensures |Counted(Next(s, a))| == |Counted(s)| - 1
  {
    SameKeys(s, a);
    LeftThread(s, a.c);
    var p := s.cores[a.c].previous.value;
    assert p in Counted(s);
    assert Counted(Next(s, a)) == Counted(s) - {p};
  }

  lemma SteadyCount(s: State, a: Action)
    requires Refs(s) && Enabled(s, a) && !a.Create? && !Discounts(s, a)
    requires forall u :: u in s.threads ==> CountStays(s, a, u)
    ensures Counted(Next(s, a)) == Counted(s)
  {
    SameKeys(s, a);
  }

  lemma StepCount(s: State, a: Action)
    requires Inv(s) && Refs(s) && Enabled(s, a)
    requires forall u :: u in s.threads ==> CountStays(s, a, u)
    ensures Next(s, a).count == |Counted(Next(s, a))|
  {
    StepCounter(s, a);
    if a.Create? {
      CreateCount(s, a);
    } else if Discounts(s, a) {
      DiscountCount(s, a);
    } else {
      SteadyCount(s, a);
    }
  }

  lemma StepCounter(s: State, a: Action)
    requires Refs(s) && Enabled(s, a)
    ensures Next(s, a).count == s.count + (if a.Create? then 1 else if Discounts(s, a) then -1 else 0)
  {
  }

  lemma StepKeeps(s: State, a: Action)
    requires Inv(s) && Refs(s) && Enabled(s, a)
    ensures Inv(Next(s, a)) && Refs(Next(s, a))
  {
    StepThreads(s, a);
    StepCores(s, a);
    StepSems(s, a);
    StepIdle(s, a);
    StepCount(s, a);
    InvRefs(Next(s, a));
  }
}
