/**
 The pool gets its work done: every step that is not a spurious wakeup brings a measure down, some such
 step is always possible until the release has returned, and then every task has been run once.
 */
module PoolLiveness {
  import opened Options
  import opened PoolProtocol
  import opened PoolSafety

  // ---------------------------------------------------------------- the measure

  function Rank(pc: WorkerPc): nat {
    match pc
    case Exited => 0
    case Waiting => 0
    case ExitHold => 1
    case Take => 2
    case Test => 3
    case WantLock => 4
    case Relock => 4
    case Running => 5
    case TakenHold => 6
  }

  function RankSum(ws: seq<Worker>): nat {
    if ws == [] then 0 else Rank(ws[0].pc) + RankSum(ws[1..])
  }

  function AdderLeft(pc: AdderPc): nat {
    match pc
    case Ready => 4
    case Pushing => 3
    case Pushed => 2
    case Signalling => 1
    case Added => 0
  }

  function AddersLeft(adders: seq<AdderPc>): nat {
    if adders == [] then 0 else AdderLeft(adders[0]) + AddersLeft(adders[1..])
  }

  function ReleaserLeft(r: ReleaserPc, n: nat): nat {
    match r
    case NotCalled => n + 6
    case WantStop => n + 5
    case Stopping => n + 4
    case Stopped => n + 3
    case Broadcasting => n + 2
    case Joining(k) => if k <= n then n - k + 1 else 0
    case Freed => 0
  }

  /** Steps the adders and the releaser have left: each may wake every waiter once. */
  function OutsideLeft(p: Pool): nat {
    AddersLeft(p.adders) + ReleaserLeft(p.releaser, |p.workers|)
  }

  function WorkLeft(p: Pool): nat {
    5 * |p.queue| + RankSum(p.workers)
  }

  function Measure(p: Pool): nat {
    (4 * |p.workers| + 6) * OutsideLeft(p) + WorkLeft(p)
  }

  lemma {:induction false} RankSumUpdate(ws: seq<Worker>, i: nat, w: Worker)
    requires i < |ws|
    ensures RankSum(ws[i := w]) + Rank(ws[i].pc) == RankSum(ws) + Rank(w.pc)
    decreases |ws|
  {
    if i == 0 {
      assert ws[0 := w][1..] == ws[1..];
    } else {
      assert ws[i := w][1..] == ws[1..][i - 1 := w];
      RankSumUpdate(ws[1..], i - 1, w);
    }
  }

  lemma {:induction false} RankSumWoken(ws: seq<Worker>, vs: seq<Worker>)
    requires |ws| == |vs| && forall i :: 0 <= i < |ws| ==> vs[i] == ws[i] || vs[i] == Wake(ws[i])
    ensures RankSum(vs) <= RankSum(ws) + 4 * |ws|
    decreases |ws|
  {
    if ws == [] {
    } else {
      RankSumWoken(ws[1..], vs[1..]);
    }
  }

  lemma {:induction false} AddersLeftUpdate(adders: seq<AdderPc>, j: nat, pc: AdderPc)
    requires j < |adders|
    ensures AddersLeft(adders[j := pc]) + AdderLeft(adders[j]) == AddersLeft(adders) + AdderLeft(pc)
    decreases |adders|
  {
    if j == 0 {
      assert adders[0 := pc][1..] == adders[1..];
    } else {
      assert adders[j := pc][1..] == adders[1..][j - 1 := pc];
      AddersLeftUpdate(adders[1..], j - 1, pc);
    }
  }

  predicate IsOutside(s: Step) {
    s.AdderLock? || s.AdderPush? || s.AdderUnlock? || s.AdderSignal? || s.ReleaseCall? || s.ReleaseLock? ||
    s.ReleaseStop? || s.ReleaseUnlock? || s.ReleaseBroadcast? || s.ReleaseJoin? || s.ReleaseFree?
  }

  lemma OutsideStepPays(p: Pool, s: Step)
    requires Enabled(p, s) && IsOutside(s)
    ensures var q := Next(p, s);
      && |q.workers| == |p.workers| && OutsideLeft(q) == OutsideLeft(p) - 1
      && WorkLeft(q) <= WorkLeft(p) + 4 * |p.workers| + 5
  {
    var q := Next(p, s);
    if s.AdderLock? || s.AdderPush? || s.AdderUnlock? || s.AdderSignal? {
      AddersLeftUpdate(p.adders, s.j, q.adders[s.j]);
    }
    RankSumWoken(p.workers, q.workers);
  }

  lemma WorkerStepPays(p: Pool, s: Step)
    requires Enabled(p, s) && !IsOutside(s)
    requires forall i :: 0 <= i < |p.workers| ==> WorkerValid(p, p.workers[i])
    ensures var q := Next(p, s);
      && |q.workers| == |p.workers| && OutsideLeft(q) == OutsideLeft(p)
      && if s.SpuriousWakeup? then WorkLeft(q) == WorkLeft(p) + 4 else WorkLeft(q) < WorkLeft(p)
  {
    var q := Next(p, s);
    assert WorkerValid(p, p.workers[s.i]);
    RankSumUpdate(p.workers, s.i, q.workers[s.i]);
    assert q.workers == p.workers[s.i := q.workers[s.i]];
  }

  /** Every step but a spurious wakeup brings the measure down, and that one raises it by four. */
  lemma StepPays(p: Pool, s: Step)
    requires Inv(p) && Enabled(p, s)
    ensures if s.SpuriousWakeup? then Measure(Next(p, s)) == Measure(p) + 4 else Measure(Next(p, s)) < Measure(p)
  {
    var b := 4 * |p.workers| + 6;
    hide OutsideLeft, WorkLeft, Next, Enabled, MutualExclusion, ReleaserValid, NoLostWakeup, Conserved, LateIsLeft,
      WorkerValid;
    if IsOutside(s) {
      OutsideStepPays(p, s);
      assert b * (OutsideLeft(p) - 1) == b * OutsideLeft(p) - b;
    } else {
      WorkerStepPays(p, s);
    }
  }

  function Spurious(steps: seq<Step>): nat {
    if steps == [] then 0 else (if steps[0].SpuriousWakeup? then 1 else 0) + Spurious(steps[1..])
  }

  /** Every run is finite: its length is bounded by the measure and the number of spurious wakeups. */
  lemma {:induction false} RunIsBounded(p: Pool, steps: seq<Step>)
    requires Inv(p) && IsRun(p, steps)
    ensures |steps| + Measure(After(p, steps)) <= Measure(p) + 5 * Spurious(steps)
    decreases |steps|
  {
    if steps == [] {
    } else {
      StepPays(p, steps[0]);
      StepKeepsInv(p, steps[0]);
      RunIsBounded(Next(p, steps[0]), steps[1..]);
    }
  }

  // ---------------------------------------------------------------- progress

  /** No `add_task` is still to come or waiting for the mutex: each has at least locked it. */
  ghost predicate AllHaveLocked(p: Pool) {
    forall j :: 0 <= j < |p.adders| ==> p.adders[j] != Ready
  }

  /** The caller keeps the pool's rule: release is called when every `add_task` has got hold of the mutex. */
  ghost predicate Allowed(p: Pool, s: Step) {
    s.ReleaseCall? ==> AllHaveLocked(p)
  }

  /** Whoever holds the mutex can go on, and is no adder still waiting for it. */
  lemma HolderCanStep(p: Pool) returns (s: Step)
    requires Inv(p) && p.lock.Some?
    ensures Enabled(p, s) && !s.SpuriousWakeup? && !s.ReleaseCall? && !s.ReleaseFree? && LeavesReady(p, s)
  {
    match p.lock.value
    case ByWorker(i) =>
      match p.workers[i].pc {
        case Test => s := WorkerTest(i);
        case Take => s := WorkerTake(i);
        case ExitHold => s := WorkerExit(i);
        case TakenHold => s := WorkerUnlock(i);
      }
    case ByAdder(j) => s := if p.adders[j] == Pushing then AdderPush(j) else AdderUnlock(j);
    case ByReleaser => s := if p.releaser == Stopping then ReleaseStop else ReleaseUnlock;
  }

  /** The step takes no adder away from the start of its call. */
  ghost predicate LeavesReady(p: Pool, s: Step)
    requires Enabled(p, s)
  {
    forall j :: 0 <= j < |p.adders| && p.adders[j] == Ready ==> j < |Next(p, s).adders| && Next(p, s).adders[j] == Ready
  }

  /** The release and the workers it waits for can get on by themselves while nobody holds the mutex. */
  lemma ReleaserCanStep(p: Pool) returns (s: Step)
    requires Inv(p) && p.lock == None && !p.releaser.Freed?
    ensures Enabled(p, s) && !s.SpuriousWakeup? && LeavesReady(p, s)
    ensures s.ReleaseCall? ==> p.releaser == NotCalled
    ensures s.ReleaseFree? ==> p.releaser == Joining(|p.workers|)
  {
    match p.releaser
    case NotCalled => s := ReleaseCall;
    case WantStop => s := ReleaseLock;
    case Broadcasting => s := ReleaseBroadcast;
    case Joining(k) =>
      if k == |p.workers| {
        s := ReleaseFree;
      } else {
        assert WorkerValid(p, p.workers[k]);
        match p.workers[k].pc {
          case Exited => s := ReleaseJoin;
          case Running => s := WorkerRun(k);
          case _ => s := WorkerLock(k);
        }
      }
  }

  /** No deadlock: until the release has returned, some thread can take a step that is not a spurious wakeup. */
  lemma Progress(p: Pool) returns (s: Step)
    requires Inv(p) && !p.releaser.Freed?
    ensures Enabled(p, s) && !s.SpuriousWakeup? && Allowed(p, s)
  {
    if p.lock.Some? {
      s := HolderCanStep(p);
    } else if !AllHaveLocked(p) {
      var j :| 0 <= j < |p.adders| && p.adders[j] == Ready;
      s := AdderLock(j);
    } else {
      s := ReleaserCanStep(p);
    }
  }

  // ---------------------------------------------------------------- what release leaves behind

  ghost predicate IsAllowedRun(p: Pool, steps: seq<Step>)
    decreases |steps|
  {
    steps == [] || (Enabled(p, steps[0]) && Allowed(p, steps[0]) && IsAllowedRun(Next(p, steps[0]), steps[1..]))
  }

  /** A release under way came after every adder's lock, so nothing is linked in once the flag is set. */
  ghost predicate RuleKept(p: Pool) {
    && |p.workers| > 0 && p.late == []
    && (p.releaser != NotCalled ==> AllHaveLocked(p))
    && (p.releaser != NotCalled && p.releaser != WantStop ==> NobodyPushes(p))
  }

  /** A release called when every adder has locked is called in such a state. */
  lemma CalledInRule(p: Pool)
    requires Inv(p) && p.releaser == WantStop && |p.workers| > 0 && AllHaveLocked(p)
    ensures RuleKept(p)
  {
    assert WorkerValid(p, p.workers[0]);
  }

  lemma AllowedStepKept(p: Pool, s: Step)
    requires Inv(p) && RuleKept(p) && Enabled(p, s) && Allowed(p, s)
    ensures RuleKept(Next(p, s)) && |Next(p, s).adders| == |p.adders|
  {
    hide Woken, WokenAll, NoLostWakeup, Conserved;
    if s.AdderPush? {
      assert WorkerValid(p, p.workers[0]);
    }
  }

  /**
   Draining.  When release returns in a run that called it after every adder had locked the mutex, all
   workers have exited, the queue is empty, and every task handed over was run exactly once.  Until then a
   queued task always has an active worker or a signal still to come.
   */
  lemma {:induction false} ReleaseDrains(p: Pool, steps: seq<Step>)
    requires Inv(p) && RuleKept(p) && IsAllowedRun(p, steps)
    ensures IsRun(p, steps)
    ensures var q := After(p, steps);
      && |q.adders| == |p.adders|
      && (q.queue != [] ==> SomeoneActive(q) || SignalOwed(q))
      && (q.releaser.Freed? ==>
            AllExited(q) && q.queue == [] && forall t: Task :: multiset(q.done)[t] == if t < |p.adders| then 1 else 0)
    decreases |steps|
  {
    if steps == [] {
      if p.releaser.Freed? {
        ExitedHoldNothing(p);
        forall t: Task ensures multiset(p.done)[t] == if t < |p.adders| then 1 else 0 {
          assert ConservedFor(p, t);
          assert t < |p.adders| ==> HasPushed(p.adders[t]);
        }
      }
    } else {
      StepKeepsInv(p, steps[0]);
      AllowedStepKept(p, steps[0]);
      ReleaseDrains(Next(p, steps[0]), steps[1..]);
    }
  }

  lemma ExitedHoldNothing(p: Pool)
    requires AllExited(p)
    ensures forall t: Task :: HoldingAll(p.workers, t) == 0
  {
    forall t: Task ensures HoldingAll(p.workers, t) == 0 {
      NobodyHolds(p.workers, t);
    }
  }

  /** The last step is the one with which release returns. */
  ghost predicate Returns(steps: seq<Step>) {
    steps != [] && steps[|steps| - 1] == ReleaseFree
  }

  /** From every reachable state the release can be brought to return, by steps that keep the rule. */
  lemma {:induction false} ReleaseCompletes(p: Pool) returns (steps: seq<Step>)
    requires Inv(p)
    ensures IsAllowedRun(p, steps) && IsRun(p, steps) && After(p, steps).releaser.Freed? && Spurious(steps) == 0
    ensures if p.releaser.Freed? then steps == [] else Returns(steps)
    decreases Measure(p)
  {
    if p.releaser.Freed? {
      steps := [];
    } else {
      var s := Progress(p);
      StepPays(p, s);
      StepKeepsInv(p, s);
      var rest := ReleaseCompletes(Next(p, s));
      steps := [s] + rest;
      assert steps[0] == s && steps[1..] == rest;
    }
  }

  // ---------------------------------------------------------------- when release drains, exactly

  /** Whatever the threads do from here, the queue is empty at the moment release returns. */
  ghost predicate AlwaysDrains(p: Pool) {
    forall steps: seq<Step> :: IsRun(p, steps) && Returns(steps) ==> After(p, steps).queue == []
  }

  lemma {:induction false} ReturnedIsFreed(p: Pool, steps: seq<Step>)
    requires IsRun(p, steps) && Returns(steps)
    ensures After(p, steps).releaser.Freed?
    decreases |steps|
  {
    if |steps| == 1 {
      assert steps[1..] == [];
    } else {
      ReturnedIsFreed(Next(p, steps[0]), steps[1..]);
    }
  }

  /** Once release is called no run calls it again, so every run keeps the rule or none does. */
  lemma {:induction false} CalledRunsAreAllowed(p: Pool, steps: seq<Step>)
    requires IsRun(p, steps) && p.releaser != NotCalled
    ensures IsAllowedRun(p, steps)
    decreases |steps|
  {
    if steps == [] {
    } else {
      CalledRunsAreAllowed(Next(p, steps[0]), steps[1..]);
    }
  }

  /** The other threads can bring the release to its last step while `j` has yet to lock the mutex. */
  lemma {:induction false} AllJoinWithout(p: Pool, j: nat) returns (steps: seq<Step>)
    requires Inv(p) && j < |p.adders| && p.adders[j] == Ready && p.releaser != NotCalled && !p.releaser.Freed?
    ensures IsRun(p, steps)
    ensures var q := After(p, steps);
      && Inv(q) && q.lock == None && q.releaser == Joining(|q.workers|)
      && j < |q.adders| && q.adders[j] == Ready
    decreases Measure(p)
  {
    if p.lock == None && p.releaser == Joining(|p.workers|) {
      steps := [];
    } else {
      var s: Step;
      if p.lock.Some? {
        s := HolderCanStep(p);
      } else {
        s := ReleaserCanStep(p);
      }
      StepPays(p, s);
      StepKeepsInv(p, s);
      ReleaseGoesOn(p, s);
      var rest := AllJoinWithout(Next(p, s), j);
      steps := [s] + rest;
      assert steps[0] == s && steps[1..] == rest;
    }
  }

  lemma ReleaseGoesOn(p: Pool, s: Step)
    requires Enabled(p, s) && p.releaser != NotCalled && !p.releaser.Freed? && !s.ReleaseFree?
    ensures Next(p, s).releaser != NotCalled && !Next(p, s).releaser.Freed?
  {
  }

  /** With only the last step of the release to come, an adder that locks now leaves its task behind. */
  lemma LateAddIsLeft(p: Pool, j: nat) returns (steps: seq<Step>)
    requires Inv(p) && p.lock == None && p.releaser == Joining(|p.workers|) && j < |p.adders| && p.adders[j] == Ready
    ensures IsRun(p, steps) && Returns(steps) && j in After(p, steps).queue
  {
    var q := Next(p, AdderLock(j));
    var r := Next(q, AdderPush(j));
    var s := Next(r, AdderUnlock(j));
    var t := Next(s, ReleaseFree);
    assert t.releaser.Freed? && t.queue == p.queue + [j];
    var a := TwoSteps(p, AdderLock(j), q, AdderPush(j), r);
    var b := TwoSteps(r, AdderUnlock(j), s, ReleaseFree, t);
    hide Next, Enabled;
    RunsCompose(p, a, b);
    steps := a + b;
  }

  ghost predicate NobodyPushes(p: Pool) {
    forall j :: 0 <= j < |p.adders| ==> p.adders[j] != Pushing
  }

  /** Without a worker nothing leaves the queue. */
  lemma {:induction false} NoWorkerTakesNothing(p: Pool, steps: seq<Step>)
    requires IsRun(p, steps) && |p.workers| == 0
    ensures var q := After(p, steps);
      && |p.queue| <= |q.queue|
      && (p.queue == [] && AllHaveLocked(p) && NobodyPushes(p) ==> q.queue == [])
    decreases |steps|
  {
    if steps == [] {
    } else {
      NoWorkerTakesNothing(Next(p, steps[0]), steps[1..]);
    }
  }

  /** A run from here in which release returns and what is queued now, or about to be, is still there. */
  lemma NoWorkerLeavesAll(p: Pool) returns (steps: seq<Step>)
    requires Inv(p) && |p.workers| == 0 && (p.queue != [] || !NobodyPushes(p)) && !p.releaser.Freed?
    ensures IsRun(p, steps) && Returns(steps) && After(p, steps).queue != []
  {
    if p.queue != [] {
      steps := ReleaseCompletes(p);
      NoWorkerTakesNothing(p, steps);
    } else {
      var j :| 0 <= j < |p.adders| && p.adders[j] == Pushing;
      var q := Next(p, AdderPush(j));
      StepKeepsInv(p, AdderPush(j));
      var rest := ReleaseCompletes(q);
      NoWorkerTakesNothing(q, rest);
      steps := [AdderPush(j)] + rest;
      assert steps[0] == AdderPush(j) && steps[1..] == rest;
    }
  }

  /**
   What a caller of release has to make sure of: every `add_task` has got hold of the mutex, and a pool
   without workers has no task and gets none.
   */
  ghost predicate ReadyForRelease(p: Pool) {
    AllHaveLocked(p) && (|p.workers| == 0 ==> p.queue == [] && NobodyPushes(p))
  }

  /** Once release is called, it always leaves an empty queue if and only if the pool was ready for it. */
  lemma ReleaseDrainsIff(p: Pool)
    requires Inv(p) && p.releaser == WantStop
    ensures AlwaysDrains(p) <==> ReadyForRelease(p)
  {
    if ReadyForRelease(p) {
      forall steps: seq<Step> | IsRun(p, steps) && Returns(steps)
        ensures After(p, steps).queue == []
      {
        ReturnedIsFreed(p, steps);
        if |p.workers| == 0 {
          NoWorkerTakesNothing(p, steps);
        } else {
          CalledInRule(p);
          CalledRunsAreAllowed(p, steps);
          ReleaseDrains(p, steps);
        }
      }
    } else if AllHaveLocked(p) {
      var steps := NoWorkerLeavesAll(p);
    } else {
      var j :| 0 <= j < |p.adders| && p.adders[j] == Ready;
      var a := AllJoinWithout(p, j);
      var b := LateAddIsLeft(After(p, a), j);
      RunsCompose(p, a, b);
      assert IsRun(p, a + b) && Returns(a + b) && After(p, a + b).queue != [];
    }
  }

  // ---------------------------------------------------------------- why the rule is needed

  lemma {:induction false} RunsCompose(p: Pool, a: seq<Step>, b: seq<Step>)
    requires IsRun(p, a) && IsRun(After(p, a), b)
    ensures IsRun(p, a + b) && After(p, a + b) == After(After(p, a), b)
    decreases |a|
  {
    hide Next, Enabled;
    if a == [] {
      assert a + b == b;
    } else {
      RunsCompose(Next(p, a[0]), a[1..], b);
      assert (a + b)[0] == a[0] && (a + b)[1..] == a[1..] + b;
    }
  }

  lemma OneStep(p: Pool, s: Step, q: Pool) returns (steps: seq<Step>)
    requires Enabled(p, s) && Next(p, s) == q
    ensures IsRun(p, steps) && After(p, steps) == q
  {
    steps := [s];
    assert steps[1..] == [] && IsRun(q, []);
  }

  lemma TwoSteps(p: Pool, s: Step, q: Pool, s': Step, r: Pool) returns (steps: seq<Step>)
    requires Enabled(p, s) && Next(p, s) == q && Enabled(q, s') && Next(q, s') == r
    ensures IsRun(p, steps) && After(p, steps) == r && steps != [] && steps[|steps| - 1] == s'
  {
    var last := [s'];
    assert last[1..] == [] && IsRun(r, []) && IsRun(q, last) && After(q, last) == r;
    steps := [s, s'];
    assert steps[1..] == last;
  }

  /** A pool of one worker and one `add_task`. */
  function Small(lock: Option<Holder>, queue: seq<Task>, stop: bool, worker: WorkerPc,
                 adder: AdderPc, releaser: ReleaserPc, late: seq<Task>): Pool
  {
    Pool(lock, queue, stop, [Worker(worker, None)], [adder], releaser, [], late)
  }

  lemma StopWithoutTask() returns (p: Pool, q: Pool, steps: seq<Step>)
    ensures p == Small(None, [], false, WantLock, Ready, NotCalled, [])
    ensures q == Small(None, [], true, Exited, Ready, Broadcasting, [])
    ensures IsRun(p, steps) && After(p, steps) == q
  {
    p := Small(None, [], false, WantLock, Ready, NotCalled, []);
    var stopping := Small(Some(ByReleaser), [], false, WantLock, Ready, Stopping, []);
    var a := TwoSteps(p, ReleaseCall, p.(releaser := WantStop), ReleaseLock, stopping);
    var stopped := Small(None, [], true, WantLock, Ready, Broadcasting, []);
    var b := TwoSteps(stopping, ReleaseStop, stopping.(releaser := Stopped, stop := true), ReleaseUnlock, stopped);
    var test := Small(Some(ByWorker(0)), [], true, Test, Ready, Broadcasting, []);
    var take := Small(Some(ByWorker(0)), [], true, Take, Ready, Broadcasting, []);
    var c := TwoSteps(stopped, WorkerLock(0), test, WorkerTest(0), take);
    q := Small(None, [], true, Exited, Ready, Broadcasting, []);
    var exiting := Small(Some(ByWorker(0)), [], true, ExitHold, Ready, Broadcasting, []);
    var d := TwoSteps(take, WorkerTake(0), exiting, WorkerExit(0), q);
    hide Next, Enabled;
    RunsCompose(p, a, b);
    RunsCompose(p, a + b, c);
    RunsCompose(p, a + b + c, d);
    steps := a + b + c + d;
  }

  lemma AddAfterExit(p: Pool) returns (q: Pool, steps: seq<Step>)
    requires p == Small(None, [], true, Exited, Ready, Broadcasting, [])
    ensures q == Small(None, [0], true, Exited, Added, Broadcasting, [0])
    ensures IsRun(p, steps) && After(p, steps) == q
  {
    var pushing := Small(Some(ByAdder(0)), [], true, Exited, Pushing, Broadcasting, []);
    var pushed := Small(Some(ByAdder(0)), [0], true, Exited, Pushed, Broadcasting, [0]);
    assert p.adders[0 := Pushing] == pushing.adders && pushing.adders[0 := Pushed] == pushed.adders;
    var a := TwoSteps(p, AdderLock(0), pushing, AdderPush(0), pushed);
    var signalling := Small(None, [0], true, Exited, Signalling, Broadcasting, [0]);
    q := Small(None, [0], true, Exited, Added, Broadcasting, [0]);
    assert pushed.adders[0 := Signalling] == signalling.adders && signalling.adders[0 := Added] == q.adders;
    assert Woken(signalling.workers, {}) == q.workers;
    var b := TwoSteps(pushed, AdderUnlock(0), signalling, AdderSignal(0, {}), q);
    hide Next, Enabled;
    RunsCompose(p, a, b);
    steps := a + b;
  }

  lemma JoinAndFree(p: Pool) returns (q: Pool, steps: seq<Step>)
    requires p == Small(None, [0], true, Exited, Added, Broadcasting, [0])
    ensures q == p.(releaser := Freed)
    ensures IsRun(p, steps) && After(p, steps) == q
  {
    assert WokenAll(p.workers) == p.workers;
    var a := TwoSteps(p, ReleaseBroadcast, p.(releaser := Joining(0)), ReleaseJoin, p.(releaser := Joining(1)));
    q := p.(releaser := Freed);
    var b := OneStep(p.(releaser := Joining(1)), ReleaseFree, q);
    hide Next, Enabled;
    RunsCompose(p, a, b);
    steps := a + b;
  }

  /**
   Without the rule the promise fails: one worker, one `add_task` still on its way when release is
   called.  The worker exits on an empty queue, the task is linked in afterwards, and nobody runs it.
   */
  lemma InFlightAddIsStranded() returns (p: Pool, steps: seq<Step>)
    ensures Init(p) && |p.workers| == 1 && |p.adders| == 1 && IsRun(p, steps)
    ensures var q := After(p, steps);
      q.releaser.Freed? && q.adders == [Added] && q.queue == [0] && q.done == [] && q.late == [0]
  {
    var start, m, a := StopWithoutTask();
    var n, b := AddAfterExit(m);
    var q, c := JoinAndFree(n);
    RunsCompose(start, a, b);
    RunsCompose(start, a + b, c);
    p, steps := start, a + b + c;
  }
}
