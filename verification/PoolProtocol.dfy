/**
 The thread pool as interleaved steps of its threads: workers that take tasks under a mutex and wait
 on a condition variable, callers of `add_task`, and one caller of `release_thread_poll`.  A program
 counter per thread names the statement it is about to execute; a step runs one of them.  Waiting may
 end spuriously, and a signal may wake more than one waiter.
 */
module PoolProtocol {
  import opened Options

  /** Each call of `add_task` allocates its own task, so the call's number names the task. */
  type Task = nat

  datatype WorkerPc =
    | WantLock    // about to lock the mutex
    | Test        // holds it, about to test whether to wait
    | Waiting     // in the condition wait, mutex released
    | Relock      // woken, has to take the mutex again
    | Take        // holds it, past the wait
    | ExitHold    // holds it, about to unlock and exit
    | TakenHold   // holds it, past the removal of a task
    | Running     // mutex released, about to run the task in its local variable
    | Exited

  /** `task` is the local variable that keeps its value from one round to the next. */
  datatype Worker = Worker(pc: WorkerPc, task: Option<Task>)

  datatype AdderPc =
    | Ready       // not called yet, or about to lock
    | Pushing     // holds the mutex, about to link the task in
    | Pushed      // holds the mutex, about to unlock
    | Signalling  // about to signal
    | Added

  datatype ReleaserPc =
    | NotCalled
    | WantStop      // about to lock
    | Stopping      // holds the mutex, about to set the flag
    | Stopped       // holds the mutex, about to unlock
    | Broadcasting  // about to broadcast
    | Joining(next: nat)
    | Freed

  datatype Holder = ByWorker(i: nat) | ByAdder(j: nat) | ByReleaser

  /**
   The shared state and all program counters.  `done` records the tasks in the order they were run,
   `late` those linked in when no worker was left; neither is read by a step.
   */
  datatype Pool = Pool(lock: Option<Holder>, queue: seq<Task>, stop: bool, workers: seq<Worker>,
                       adders: seq<AdderPc>, releaser: ReleaserPc, done: seq<Task>, late: seq<Task>)

  datatype Step =
    | WorkerLock(i: nat) | WorkerTest(i: nat) | WorkerTake(i: nat) | WorkerExit(i: nat)
    | WorkerUnlock(i: nat) | WorkerRun(i: nat) | SpuriousWakeup(i: nat)
    | AdderLock(j: nat) | AdderPush(j: nat) | AdderUnlock(j: nat) | AdderSignal(j: nat, woken: set<nat>)
    | ReleaseCall | ReleaseLock | ReleaseStop | ReleaseUnlock | ReleaseBroadcast | ReleaseJoin | ReleaseFree

  // ---------------------------------------------------------------- the steps

  ghost predicate IsWaiting(p: Pool, i: nat) {
    i < |p.workers| && p.workers[i].pc == Waiting
  }

  predicate AllExited(p: Pool) {
    forall i :: 0 <= i < |p.workers| ==> p.workers[i].pc == Exited
  }

  ghost predicate AtWorker(p: Pool, i: nat, pc: WorkerPc) {
    i < |p.workers| && p.workers[i].pc == pc
  }

  ghost predicate AtAdder(p: Pool, j: nat, pc: AdderPc) {
    j < |p.adders| && p.adders[j] == pc
  }

  ghost predicate Enabled(p: Pool, s: Step) {
    match s
    case WorkerLock(i) => (AtWorker(p, i, WantLock) || AtWorker(p, i, Relock)) && p.lock == None
    case WorkerTest(i) => AtWorker(p, i, Test)
    case WorkerTake(i) => AtWorker(p, i, Take)
    case WorkerExit(i) => AtWorker(p, i, ExitHold)
    case WorkerUnlock(i) => AtWorker(p, i, TakenHold)
    case WorkerRun(i) => AtWorker(p, i, Running)
    case SpuriousWakeup(i) => AtWorker(p, i, Waiting)
    case AdderLock(j) => AtAdder(p, j, Ready) && p.lock == None
    case AdderPush(j) => AtAdder(p, j, Pushing)
    case AdderUnlock(j) => AtAdder(p, j, Pushed)
    case AdderSignal(j, woken) =>
      && AtAdder(p, j, Signalling)
      && (forall i :: i in woken ==> IsWaiting(p, i))
      && ((exists i :: IsWaiting(p, i)) ==> woken != {})
    case ReleaseCall => p.releaser == NotCalled
    case ReleaseLock => p.releaser == WantStop && p.lock == None
    case ReleaseStop => p.releaser == Stopping
    case ReleaseUnlock => p.releaser == Stopped
    case ReleaseBroadcast => p.releaser == Broadcasting
    case ReleaseJoin =>
      p.releaser.Joining? && p.releaser.next < |p.workers| && p.workers[p.releaser.next].pc == Exited
    case ReleaseFree => p.releaser.Joining? && p.releaser.next == |p.workers|
  }

  function Goto(p: Pool, i: nat, pc: WorkerPc): Pool
    requires i < |p.workers|
  {
    p.(workers := p.workers[i := p.workers[i].(pc := pc)])
  }

  function Wake(w: Worker): Worker {
    if w.pc == Waiting then w.(pc := Relock) else w
  }

  /** Wake the waiters in `woken`. */
  ghost function Woken(workers: seq<Worker>, woken: set<nat>): (r: seq<Worker>)
    ensures |r| == |workers|
  {
    seq(|workers|, i requires 0 <= i < |workers| => if i in woken then Wake(workers[i]) else workers[i])
  }

  ghost function WokenAll(workers: seq<Worker>): (r: seq<Worker>)
    ensures |r| == |workers|
  {
    seq(|workers|, i requires 0 <= i < |workers| => Wake(workers[i]))
  }

  ghost function Next(p: Pool, s: Step): Pool
    requires Enabled(p, s)
  {
    match s
    case WorkerLock(i) => Goto(p, i, Test).(lock := Some(ByWorker(i)))
    case WorkerTest(i) =>
      if p.queue == [] && !p.stop then Goto(p, i, Waiting).(lock := None) else Goto(p, i, Take)
    case WorkerTake(i) =>
      if p.stop && p.queue == [] then
        Goto(p, i, ExitHold)
      else if p.queue != [] then
        var last := |p.queue| - 1;
        p.(workers := p.workers[i := Worker(TakenHold, Some(p.queue[last]))], queue := p.queue[..last])
      else
        Goto(p, i, TakenHold)
    case WorkerExit(i) => Goto(p, i, Exited).(lock := None)
    case WorkerUnlock(i) => Goto(p, i, Running).(lock := None)
    case WorkerRun(i) =>
      var ran := match p.workers[i].task case None => [] case Some(t) => [t];
      Goto(p, i, WantLock).(done := p.done + ran)
    case SpuriousWakeup(i) => Goto(p, i, Relock)
    case AdderLock(j) => p.(adders := p.adders[j := Pushing], lock := Some(ByAdder(j)))
    case AdderPush(j) =>
      p.(adders := p.adders[j := Pushed], queue := p.queue + [j],
         late := if AllExited(p) then p.late + [j] else p.late)
    case AdderUnlock(j) => p.(adders := p.adders[j := Signalling], lock := None)
    case AdderSignal(j, woken) => p.(adders := p.adders[j := Added], workers := Woken(p.workers, woken))
    case ReleaseCall => p.(releaser := WantStop)
    case ReleaseLock => p.(releaser := Stopping, lock := Some(ByReleaser))
    case ReleaseStop => p.(releaser := Stopped, stop := true)
    case ReleaseUnlock => p.(releaser := Broadcasting, lock := None)
    case ReleaseBroadcast => p.(releaser := Joining(0), workers := WokenAll(p.workers))
    case ReleaseJoin => p.(releaser := Joining(p.releaser.next + 1))
    case ReleaseFree => p.(releaser := Freed)
  }

  /** `create_thread_pool` with `workers` threads, before any of them has run. */
  ghost predicate Init(p: Pool) {
    && p.lock == None && p.queue == [] && !p.stop && p.done == [] && p.late == [] && p.releaser == NotCalled
    && (forall i :: 0 <= i < |p.workers| ==> p.workers[i] == Worker(WantLock, None))
    && (forall j :: 0 <= j < |p.adders| ==> p.adders[j] == Ready)
  }

  ghost predicate IsRun(p: Pool, steps: seq<Step>)
    decreases |steps|
  {
    steps == [] || (Enabled(p, steps[0]) && IsRun(Next(p, steps[0]), steps[1..]))
  }

  ghost function After(p: Pool, steps: seq<Step>): Pool
    requires IsRun(p, steps)
    decreases |steps|
  {
    if steps == [] then p else After(Next(p, steps[0]), steps[1..])
  }

  // ---------------------------------------------------------------- who is doing what

  predicate WorkerHolds(pc: WorkerPc) {
    pc in {Test, Take, ExitHold, TakenHold}
  }

  predicate AdderHolds(pc: AdderPc) {
    pc in {Pushing, Pushed}
  }

  predicate ReleaserHolds(pc: ReleaserPc) {
    pc == Stopping || pc == Stopped
  }

  /** Neither waiting nor gone: such a worker looks at the queue before it does either. */
  predicate Active(w: Worker) {
    w.pc != Waiting && w.pc != Exited
  }

  predicate HasPushed(pc: AdderPc) {
    pc in {Pushed, Signalling, Added}
  }

  predicate OwesSignal(pc: AdderPc) {
    pc in {Pushed, Signalling}
  }

  /** How often a worker is about to run `t`. */
  function Holding(w: Worker, t: Task): nat {
    if (w.pc == TakenHold || w.pc == Running) && w.task == Some(t) then 1 else 0
  }

  function HoldingAll(ws: seq<Worker>, t: Task): nat {
    if ws == [] then 0 else Holding(ws[0], t) + HoldingAll(ws[1..], t)
  }

  lemma {:induction false} HoldingAllUpdate(ws: seq<Worker>, i: nat, w: Worker, t: Task)
    requires i < |ws|
    ensures HoldingAll(ws[i := w], t) + Holding(ws[i], t) == HoldingAll(ws, t) + Holding(w, t)
    decreases |ws|
  {
    if i == 0 {
      assert ws[0 := w][1..] == ws[1..];
    } else {
      assert ws[i := w][1..] == ws[1..][i - 1 := w];
      HoldingAllUpdate(ws[1..], i - 1, w, t);
    }
  }

  lemma {:induction false} HoldingAllSame(ws: seq<Worker>, vs: seq<Worker>, t: Task)
    requires |ws| == |vs| && forall i :: 0 <= i < |ws| ==> Holding(ws[i], t) == Holding(vs[i], t)
    ensures HoldingAll(ws, t) == HoldingAll(vs, t)
    decreases |ws|
  {
    if ws == [] {
    } else {
      HoldingAllSame(ws[1..], vs[1..], t);
    }
  }

  // ---------------------------------------------------------------- the invariant

  ghost predicate MutualExclusion(p: Pool) {
    && (forall i :: 0 <= i < |p.workers| ==> (WorkerHolds(p.workers[i].pc) <==> p.lock == Some(ByWorker(i))))
    && (forall j :: 0 <= j < |p.adders| ==> (AdderHolds(p.adders[j]) <==> p.lock == Some(ByAdder(j))))
    && (ReleaserHolds(p.releaser) <==> p.lock == Some(ByReleaser))
    && (p.lock.Some? && p.lock.value.ByWorker? ==> p.lock.value.i < |p.workers|)
    && (p.lock.Some? && p.lock.value.ByAdder? ==> p.lock.value.j < |p.adders|)
  }

  predicate BroadcastDone(r: ReleaserPc) {
    r.Joining? || r.Freed?
  }

  /** What a worker's position says about the queue and the flag. */
  ghost predicate WorkerValid(p: Pool, w: Worker) {
    && (w.pc == Take ==> p.queue != [] || p.stop)
    && (w.pc == ExitHold ==> p.queue == [] && p.stop)
    && (w.pc == Exited ==> p.stop)
    && (w.pc == TakenHold || w.pc == Running ==> w.task.Some?)
    && (BroadcastDone(p.releaser) ==> w.pc != Waiting)
  }

  ghost predicate ReleaserValid(p: Pool) {
    && (p.stop <==> p.releaser in {Stopped, Broadcasting} || BroadcastDone(p.releaser))
    && (p.releaser.Joining? ==>
          p.releaser.next <= |p.workers| && forall k :: 0 <= k < p.releaser.next ==> p.workers[k].pc == Exited)
    && (p.releaser.Freed? ==> AllExited(p))
  }

  ghost predicate SomeoneActive(p: Pool) {
    exists i :: 0 <= i < |p.workers| && Active(p.workers[i])
  }

  ghost predicate SignalOwed(p: Pool) {
    exists j :: 0 <= j < |p.adders| && OwesSignal(p.adders[j])
  }

  /** No lost wakeup: a queued task has a worker on its way to it, or a signal still to come. */
  ghost predicate NoLostWakeup(p: Pool) {
    p.queue != [] ==> SomeoneActive(p) || SignalOwed(p) || AllExited(p)
  }

  /** Every task handed over is queued, in the hands of one worker, or run, and only one of these, once. */
  ghost predicate Conserved(p: Pool) {
    forall t: Task :: ConservedFor(p, t)
  }

  ghost predicate ConservedFor(p: Pool, t: Task) {
    multiset(p.queue)[t] + multiset(p.done)[t] + HoldingAll(p.workers, t)
      == if t < |p.adders| && HasPushed(p.adders[t]) then 1 else 0
  }

  /** What is left behind when all workers are gone is what was added after that. */
  ghost predicate LateIsLeft(p: Pool) {
    p.late == if AllExited(p) then p.queue else []
  }

  ghost predicate Inv(p: Pool) {
    && MutualExclusion(p)
    && (forall i :: 0 <= i < |p.workers| ==> WorkerValid(p, p.workers[i]))
    && ReleaserValid(p)
    && NoLostWakeup(p)
    && Conserved(p)
    && LateIsLeft(p)
  }
}
