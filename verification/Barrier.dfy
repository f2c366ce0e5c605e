// The sense-reversing barrier: any number of cores, any number of rounds. Every atomic load,
// store and fetch-and-decrement is a step of its own.

module Barriers {
  import opened Counting

  // Where a core is in its call.
  datatype Point =
    | Outside
    | Loaded(sense: bool)      // has the sense it will wait for
    | Resetting(sense: bool)   // was the last to arrive
    | Releasing(sense: bool)   // has reset the counter
    | Spinning(sense: bool)

  // A core; it keeps count of the calls it entered, those in which it decremented the counter, and
  // those it left.
  datatype Core = Core(point: Point, entered: nat, arrived: nat, left: nat)

  datatype State = State(cores: seq<Core>, ready: int, gsense: bool)

  // ---- Steps ----

  predicate Initial(s: State) {
    s.cores != [] && s.ready == |s.cores| && s.gsense
    && forall c :: 0 <= c < |s.cores| ==> s.cores[c] == Core(Outside, 0, 0, 0)
  }

  predicate CanStep(s: State, c: nat)
    requires c < |s.cores|
  {
    s.cores[c].point.Spinning? ==> s.gsense == s.cores[c].point.sense
  }

  // The next step of core c; a core that spins in vain stays.
  function Next(s: State, c: nat): (t: State)
    requires c < |s.cores|
    ensures |t.cores| == |s.cores|
  {
    var core := s.cores[c];
    match core.point
    case Outside =>
      s.(cores := s.cores[c := core.(point := Loaded(!s.gsense), entered := core.entered + 1)])
    case Loaded(sense) =>
      var point := if s.ready == 1 then Resetting(sense) else Spinning(sense);
      s.(cores := s.cores[c := core.(point := point, arrived := core.arrived + 1)], ready := s.ready - 1)
    case Resetting(sense) =>
      s.(cores := s.cores[c := core.(point := Releasing(sense))], ready := |s.cores|)
    case Releasing(sense) =>
      s.(cores := s.cores[c := core.(point := Outside, left := core.left + 1)], gsense := sense)
    case Spinning(sense) =>
      if s.gsense != sense then s
      else s.(cores := s.cores[c := core.(point := Outside, left := core.left + 1)])
  }

  // The states a run goes through when the cores in the schedule step one after the other.
  function Run(s: State, schedule: seq<nat>): (t: State)
    requires forall i :: 0 <= i < |schedule| ==> schedule[i] < |s.cores|
    ensures |t.cores| == |s.cores|
    decreases |schedule|
  {
    if schedule == [] then s
    else Next(Run(s, schedule[..|schedule| - 1]), schedule[|schedule| - 1])
  }

  // ---- The invariant ----

  // The cores that decremented the counter in the round after round r.
  function Arrived(s: State, r: nat): set<nat> {
    set c: nat | c < |s.cores| && s.cores[c].arrived == r + 1
  }

  // The sense after r rounds.
  predicate Sense(r: nat) {
    if r == 0 then true else !Sense(r - 1)
  }

  // A core when r rounds are complete.
  predicate CoreFits(core: Core, r: nat) {
    match core.point
    case Outside => core.entered == r && core.arrived == r && core.left == r
    case Loaded(sense) => core.entered == r + 1 && core.arrived == r && core.left == r && sense == Sense(r + 1)
    case Resetting(sense) => core.entered == r + 1 && core.arrived == r + 1 && core.left == r && sense == Sense(r + 1)
    case Releasing(sense) => core.entered == r + 1 && core.arrived == r + 1 && core.left == r && sense == Sense(r + 1)
    case Spinning(sense) =>
      core.entered == core.arrived == core.left + 1 && sense == Sense(core.entered) && r <= core.entered <= r + 1
  }

  predicate Ends(core: Core) {
    core.point.Resetting? || core.point.Releasing?
  }

  ghost predicate SomeEnds(s: State) {
    exists c :: 0 <= c < |s.cores| && Ends(s.cores[c])
  }

  ghost predicate SomeReleases(s: State) {
    exists c :: 0 <= c < |s.cores| && s.cores[c].point.Releasing?
  }

  // The last to arrive is alone in ending the round; the counter says how many are to come, until
  // the last core resets it.
  ghost predicate Inv(s: State, r: nat) {
    && s.cores != [] && s.gsense == Sense(r)
    && (forall c :: 0 <= c < |s.cores| ==> CoreFits(s.cores[c], r))
    && (forall c, d :: 0 <= c < |s.cores| && 0 <= d < |s.cores| && Ends(s.cores[c]) && Ends(s.cores[d]) ==> c == d)
    && (SomeEnds(s) <==> |Arrived(s, r)| == |s.cores|)
    && s.ready == |s.cores| - (if SomeReleases(s) then 0 else |Arrived(s, r)|)
  }

  // ---- Counting arrivals ----

  lemma ArrivedAll(s: State, r: nat)
    ensures |Arrived(s, r)| <= |s.cores|
    ensures |Arrived(s, r)| == |s.cores| <==> forall c :: 0 <= c < |s.cores| ==> s.cores[c].arrived == r + 1
  {
    var all := Below(|s.cores|);
    BelowSize(|s.cores|);
    Subset(Arrived(s, r), all);
    if forall c :: 0 <= c < |s.cores| ==> s.cores[c].arrived == r + 1 {
      assert Arrived(s, r) == all;
    } else {
      var c: nat :| c < |s.cores| && s.cores[c].arrived != r + 1;
      assert c in all && c !in Arrived(s, r);
    }
  }

  // ---- Every step keeps the invariant ----

  function After(s: State, r: nat, c: nat): nat
    requires c < |s.cores|
  {
    if s.cores[c].point.Releasing? then r + 1 else r
  }

  // Only core c changes.
  predicate OnlyCore(s: State, t: State, c: nat) {
    && c < |s.cores| == |t.cores|
    && forall d :: 0 <= d < |s.cores| && d != c ==> t.cores[d] == s.cores[d]
  }

  lemma NobodyNew(s: State, t: State, c: nat, r: nat)
    requires OnlyCore(s, t, c) && Ends(t.cores[c]) == Ends(s.cores[c])
    requires t.cores[c].point.Releasing? == s.cores[c].point.Releasing? && t.cores[c].arrived == s.cores[c].arrived
    ensures SomeEnds(t) == SomeEnds(s) && SomeReleases(t) == SomeReleases(s) && Arrived(t, r) == Arrived(s, r)
  {
    forall d | 0 <= d < |s.cores|
      ensures Ends(t.cores[d]) == Ends(s.cores[d])
      ensures t.cores[d].point.Releasing? == s.cores[d].point.Releasing?
      ensures t.cores[d].arrived == s.cores[d].arrived
    {
    }
  }

  lemma StillFit(s: State, t: State, c: nat, r: nat)
    requires Inv(s, r) && OnlyCore(s, t, c) && CoreFits(t.cores[c], r) && (Ends(t.cores[c]) ==> Ends(s.cores[c]))
    ensures forall d :: 0 <= d < |t.cores| ==> CoreFits(t.cores[d], r)
    ensures forall d, e :: 0 <= d < |t.cores| && 0 <= e < |t.cores| && Ends(t.cores[d]) && Ends(t.cores[e]) ==> d == e
  {
  }

  // A step without arrival or release.
  lemma QuietKeeps(s: State, r: nat, c: nat)
    requires Inv(s, r) && c < |s.cores| && (s.cores[c].point.Outside? || s.cores[c].point.Spinning?)
    ensures Inv(Next(s, c), r)
  {
    var t := Next(s, c);
    if CanStep(s, c) {
      assert CoreFits(s.cores[c], r);
      QuietStep(s, t, r, c);
    } else {
      assert t == s;
    }
  }

  lemma QuietStep(s: State, t: State, r: nat, c: nat)
    requires Inv(s, r) && OnlyCore(s, t, c) && t.ready == s.ready && t.gsense == s.gsense
    requires CoreFits(t.cores[c], r) && !Ends(t.cores[c]) && !Ends(s.cores[c])
    requires t.cores[c].arrived == s.cores[c].arrived
    ensures Inv(t, r)
  {
    NobodyNew(s, t, c, r);
    StillFit(s, t, c, r);
  }

  lemma ArrivalCounts(s: State, t: State, r: nat, c: nat)
    requires OnlyCore(s, t, c) && s.cores[c].arrived == r && t.cores[c].arrived == r + 1
    ensures |Arrived(t, r)| == |Arrived(s, r)| + 1
  {
    assert Arrived(t, r) == Arrived(s, r) + {c} && c !in Arrived(s, r);
  }

  lemma NobodyEnds(s: State, r: nat, c: nat)
    requires Inv(s, r) && c < |s.cores| && s.cores[c].point.Loaded?
    ensures !SomeEnds(s) && !SomeReleases(s) && s.ready == |s.cores| - |Arrived(s, r)| && s.ready >= 1
  {
    ArrivedAll(s, r);
    assert CoreFits(s.cores[c], r);
    assert !SomeEnds(s);
    forall d | 0 <= d < |s.cores|
      ensures !s.cores[d].point.Releasing?
    {
      assert !Ends(s.cores[d]);
    }
  }

  lemma ArrivalKeeps(s: State, r: nat, c: nat)
    requires Inv(s, r) && c < |s.cores| && s.cores[c].point.Loaded?
    ensures Inv(Next(s, c), r)
  {
    var t := Next(s, c);
    NobodyEnds(s, r, c);
    assert CoreFits(s.cores[c], r) && CoreFits(t.cores[c], r);
    assert OnlyCore(s, t, c);
    ArrivalCounts(s, t, r, c);
    assert forall d :: 0 <= d < |s.cores| && d != c ==> !Ends(s.cores[d]) && !Ends(t.cores[d]);
    assert Ends(t.cores[c]) <==> s.ready == 1;
    assert !SomeReleases(t);
  }

  lemma ResetKeeps(s: State, r: nat, c: nat)
    requires Inv(s, r) && c < |s.cores| && s.cores[c].point.Resetting?
    ensures Inv(Next(s, c), r)
  {
    var t := Next(s, c);
    assert forall d :: 0 <= d < |s.cores| && d != c ==> t.cores[d] == s.cores[d];
    assert Arrived(t, r) == Arrived(s, r);
    assert Ends(s.cores[c]) && Ends(t.cores[c]) && t.cores[c].point.Releasing?;
  }

  lemma ReleaseKeeps(s: State, r: nat, c: nat)
    requires Inv(s, r) && c < |s.cores| && s.cores[c].point.Releasing?
    ensures Inv(Next(s, c), r + 1)
  {
    var t := Next(s, c);
    ArrivedAll(s, r);
    assert Ends(s.cores[c]);
    assert forall d :: 0 <= d < |s.cores| && d != c ==> t.cores[d] == s.cores[d] && s.cores[d].point.Spinning?;
    assert Arrived(t, r + 1) == {};
    assert !SomeEnds(t) && !SomeReleases(t);
  }

  lemma StepKeeps(s: State, r: nat, c: nat)
    requires Inv(s, r) && c < |s.cores|
    ensures Inv(Next(s, c), After(s, r, c))
  {
    match s.cores[c].point
    case Outside => QuietKeeps(s, r, c);
    case Loaded(_) => ArrivalKeeps(s, r, c);
    case Resetting(_) => ResetKeeps(s, r, c);
    case Releasing(_) => ReleaseKeeps(s, r, c);
    case Spinning(_) => QuietKeeps(s, r, c);
  }

  lemma InitialInv(s: State)
    requires Initial(s)
    ensures Inv(s, 0)
  {
    assert Arrived(s, 0) == {};
    assert !SomeEnds(s) && !SomeReleases(s);
  }

  // Rounds completed in a run.
  ghost function Rounds(s: State, schedule: seq<nat>): nat
    requires forall i :: 0 <= i < |schedule| ==> schedule[i] < |s.cores|
    decreases |schedule|
  {
    if schedule == [] then 0
    else
      var before := schedule[..|schedule| - 1];
      After(Run(s, before), Rounds(s, before), schedule[|schedule| - 1])
  }

  lemma {:induction false} RunKeeps(s: State, schedule: seq<nat>)
    requires Initial(s) && forall i :: 0 <= i < |schedule| ==> schedule[i] < |s.cores|
    ensures Inv(Run(s, schedule), Rounds(s, schedule))
    decreases |schedule|
  {
    if schedule == [] {
      InitialInv(s);
    } else {
      var before := schedule[..|schedule| - 1];
      RunKeeps(s, before);
      StepKeeps(Run(s, before), Rounds(s, before), schedule[|schedule| - 1]);
    }
  }

  // ---- What the barrier is for ----

  ghost predicate Reachable(t: State) {
    exists s: State, schedule: seq<nat> ::
      Initial(s) && (forall i :: 0 <= i < |schedule| ==> schedule[i] < |s.cores|) && t == Run(s, schedule)
  }

  lemma ReachableInv(t: State) returns (r: nat)
    requires Reachable(t)
    ensures Inv(t, r)
  {
    var s: State, schedule: seq<nat> :|
      Initial(s) && (forall i :: 0 <= i < |schedule| ==> schedule[i] < |s.cores|) && t == Run(s, schedule);
    RunKeeps(s, schedule);
    r := Rounds(s, schedule);
  }

  // No core leaves its k-th call before every core has decremented the counter in its own k-th.
  lemma NobodyLeavesEarly(t: State, c: nat, d: nat)
    requires Reachable(t) && c < |t.cores| && d < |t.cores|
    ensures t.cores[c].left <= t.cores[d].arrived <= t.cores[d].entered
  {
    var r := ReachableInv(t);
  }

  // Cores are never more than one round apart.
  lemma OneRoundApart(t: State, c: nat, d: nat)
    requires Reachable(t) && c < |t.cores| && d < |t.cores|
    ensures t.cores[c].entered <= t.cores[d].entered + 1
  {
    var r := ReachableInv(t);
  }

  // The cores that have decremented the counter in the call numbered k.
  function Decremented(t: State, k: nat): set<nat> {
    set c: nat | c < |t.cores| && t.cores[c].arrived >= k
  }

  // A core about to decrement finds in the counter exactly the cores that have yet to do so in
  // this round, itself among them: the first one finds it reset.
  lemma CounterIsReset(t: State, c: nat)
    requires Reachable(t) && c < |t.cores| && t.cores[c].point.Loaded?
    ensures t.ready == |t.cores| - |Decremented(t, t.cores[c].entered)| && 1 <= t.ready
    ensures (forall d :: 0 <= d < |t.cores| ==> t.cores[d].arrived < t.cores[c].entered) ==> t.ready == |t.cores|
  {
    var r := ReachableInv(t);
    NobodyEnds(t, r, c);
    assert Decremented(t, r + 1) == Arrived(t, r);
    if forall d :: 0 <= d < |t.cores| ==> t.cores[d].arrived < t.cores[c].entered {
      assert Arrived(t, r) == {};
    }
  }

  // The barrier never hangs: when all cores have entered the same call, and some are still inside,
  // one of those can step.
  lemma NeverStuck(t: State, k: nat) returns (c: nat)
    requires Reachable(t) && forall d :: 0 <= d < |t.cores| ==> t.cores[d].entered == k
    requires exists d :: 0 <= d < |t.cores| && !t.cores[d].point.Outside?
    ensures c < |t.cores| && !t.cores[c].point.Outside? && CanStep(t, c)
  {
    var r := ReachableInv(t);
    ArrivedAll(t, r);
    var e :| 0 <= e < |t.cores| && !t.cores[e].point.Outside?;
    assert CoreFits(t.cores[e], r);
    if k == r {
      c := e;
    } else if forall d :: 0 <= d < |t.cores| ==> t.cores[d].arrived == r + 1 {
      var d :| 0 <= d < |t.cores| && Ends(t.cores[d]);
      c := d;
    } else {
      var d :| 0 <= d < |t.cores| && t.cores[d].arrived != r + 1;
      assert CoreFits(t.cores[d], r);
      c := d;
    }
  }

  // Steps a core may still take before it is outside.
  function ToGo(core: Core): nat {
    match core.point
    case Outside => 0
    case Loaded(_) => 3
    case Resetting(_) => 2
    case Releasing(_) => 1
    case Spinning(_) => 1
  }

  function Work(cores: seq<Core>): nat {
    if cores == [] then 0 else ToGo(cores[0]) + Work(cores[1..])
  }

  lemma {:induction false} WorkDrops(cores: seq<Core>, c: nat, core: Core)
    requires c < |cores|
    ensures Work(cores[c := core]) == Work(cores) - ToGo(cores[c]) + ToGo(core)
  {
    if c > 0 {
      WorkDrops(cores[1..], c - 1, core);
      assert cores[c := core][1..] == cores[1..][c - 1 := core];
    } else {
      assert cores[c := core][1..] == cores[1..];
    }
  }

  // A core inside its call steps, and does not spin in vain.
  predicate Useful(t: State, c: nat) {
    c < |t.cores| && !t.cores[c].point.Outside? && CanStep(t, c)
  }

  predicate AllOutside(t: State) {
    forall d :: 0 <= d < |t.cores| ==> t.cores[d].point.Outside?
  }

  predicate AllEntered(t: State, k: nat) {
    forall d :: 0 <= d < |t.cores| ==> t.cores[d].entered == k
  }

  // Every such step brings the end nearer.
  lemma StepsAreFew(t: State, c: nat)
    requires Useful(t, c)
    ensures Work(Next(t, c).cores) < Work(t.cores)
    ensures forall d :: 0 <= d < |t.cores| ==> Next(t, c).cores[d].entered == t.cores[d].entered
  {
    WorkDrops(t.cores, c, Next(t, c).cores[c]);
  }

  // A schedule of useful steps only.
  predicate AllUseful(t: State, schedule: seq<nat>)
    decreases |schedule|
  {
    schedule == [] ||
    (var before := schedule[..|schedule| - 1];
     && AllUseful(t, before) && (forall i :: 0 <= i < |before| ==> before[i] < |t.cores|)
     && Useful(Run(t, before), schedule[|schedule| - 1]))
  }

  lemma {:induction false} ReachableNext(t: State, c: nat)
    requires Reachable(t) && c < |t.cores|
    ensures Reachable(Next(t, c))
  {
    var s: State, schedule: seq<nat> :|
      Initial(s) && (forall i :: 0 <= i < |schedule| ==> schedule[i] < |s.cores|) && t == Run(s, schedule);
    var longer := schedule + [c];
    assert longer[..|longer| - 1] == schedule;
    assert Run(s, longer) == Next(t, c);
  }

  lemma {:induction false} UsefulCores(t: State, schedule: seq<nat>)
    requires AllUseful(t, schedule)
    ensures forall i :: 0 <= i < |schedule| ==> schedule[i] < |t.cores|
  {
  }

  // A state within call k, after n of at most `work` steps.
  ghost predicate InCall(u: State, k: nat, n: nat, work: nat) {
    Reachable(u) && AllEntered(u, k) && n + Work(u.cores) <= work
  }

  lemma InCallNext(m: State, c: nat, k: nat, n: nat, work: nat)
    requires InCall(m, k, n, work) && Useful(m, c)
    ensures InCall(Next(m, c), k, n + 1, work)
  {
    StepsAreFew(m, c);
    ReachableNext(m, c);
  }

  // However the cores that all entered call k are scheduled, they take at most Work steps in it.
  lemma {:induction false} CallIsShort(t: State, k: nat, schedule: seq<nat>)
    requires Reachable(t) && AllEntered(t, k) && AllUseful(t, schedule)
    ensures forall i :: 0 <= i < |schedule| ==> schedule[i] < |t.cores|
    ensures InCall(Run(t, schedule), k, |schedule|, Work(t.cores))
    decreases |schedule|
  {
    UsefulCores(t, schedule);
    if schedule != [] {
      var n := |schedule| - 1;
      CallIsShort(t, k, schedule[..n]);
      InCallNext(Run(t, schedule[..n]), schedule[n], k, n, Work(t.cores));
    }
  }

  // So the call ends for all: after some such schedule every core is outside and has left its k-th call.
  lemma {:induction false} CallEnds(t: State, k: nat, done: seq<nat>) returns (schedule: seq<nat>)
    requires Reachable(t) && AllEntered(t, k) && AllUseful(t, done)
    ensures done <= schedule && AllUseful(t, schedule) && |schedule| <= Work(t.cores)
    ensures forall i :: 0 <= i < |schedule| ==> schedule[i] < |t.cores|
    ensures AllOutside(Run(t, schedule))
    ensures forall d :: 0 <= d < |t.cores| ==> Run(t, schedule).cores[d].left == k
    decreases Work(t.cores) - |done|
  {
    CallIsShort(t, k, done);
    var u := Run(t, done);
    if AllOutside(u) {
      schedule := done;
      var r := ReachableInv(u);
      forall d | 0 <= d < |u.cores|
        ensures u.cores[d].left == k
      {
        assert CoreFits(u.cores[d], r);
      }
    } else {
      var c := NeverStuck(u, k);
      var longer := done + [c];
      assert longer[..|longer| - 1] == done;
      CallIsShort(t, k, longer);
      schedule := CallEnds(t, k, longer);
    }
  }
}
