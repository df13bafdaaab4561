/** Every step of the pool keeps its invariant, so every reachable state has it. */
module PoolSafety {
  import opened PoolProtocol

  lemma InitHasInv(p: Pool)
    requires Init(p)
    ensures Inv(p)
  {
    forall t: Task ensures ConservedFor(p, t) {
      NobodyHolds(p.workers, t);
    }
  }

  lemma {:induction false} NobodyHolds(ws: seq<Worker>, t: Task)
    requires forall i :: 0 <= i < |ws| ==> Holding(ws[i], t) == 0
    ensures HoldingAll(ws, t) == 0
    decreases |ws|
  {
    if ws == [] {
    } else {
      NobodyHolds(ws[1..], t);
    }
  }

  lemma WakingKeepsMutex(p: Pool, s: Step)
    requires MutualExclusion(p) && Enabled(p, s) && (s.AdderSignal? || s.ReleaseBroadcast?)
    ensures MutualExclusion(Next(p, s))
  {
    var q := Next(p, s);
    assert forall i :: 0 <= i < |p.workers| ==> (WorkerHolds(q.workers[i].pc) <==> WorkerHolds(p.workers[i].pc));
  }

  lemma MutualExclusionKept(p: Pool, s: Step)
    requires MutualExclusion(p) && Enabled(p, s)
    ensures MutualExclusion(Next(p, s))
  {
    if s.AdderSignal? || s.ReleaseBroadcast? {
      WakingKeepsMutex(p, s);
    } else {
      hide Woken, WokenAll, AllExited;
      assert MutualExclusion(Next(p, s));
    }
  }

  lemma WorkersValidKept(p: Pool, s: Step)
    requires MutualExclusion(p) && ReleaserValid(p) && Enabled(p, s)
    requires forall i :: 0 <= i < |p.workers| ==> WorkerValid(p, p.workers[i])
    ensures forall i :: 0 <= i < |Next(p, s).workers| ==> WorkerValid(Next(p, s), Next(p, s).workers[i])
  {
    var q := Next(p, s);
    forall i | 0 <= i < |q.workers| ensures WorkerValid(q, q.workers[i]) {
      assert WorkerValid(p, p.workers[i]);
    }
  }

  lemma ReleaserValidKept(p: Pool, s: Step)
    requires ReleaserValid(p) && Enabled(p, s)
    ensures ReleaserValid(Next(p, s))
  {
    var q := Next(p, s);
    forall k | 0 <= k < |p.workers| && p.workers[k].pc == Exited ensures q.workers[k].pc == Exited {
    }
  }

  lemma NoLostWakeupKept(p: Pool, s: Step)
    requires NoLostWakeup(p) && Enabled(p, s)
    requires forall i :: 0 <= i < |p.workers| ==> WorkerValid(p, p.workers[i])
    ensures NoLostWakeup(Next(p, s))
  {
    var q := Next(p, s);
    if s.WorkerExit? {
      assert WorkerValid(p, p.workers[s.i]);
    } else if q.queue != [] {
      match s
      case WorkerLock(i) => assert Active(q.workers[i]);
      case WorkerTest(i) => assert Active(q.workers[i]);
      case WorkerTake(i) => assert Active(q.workers[i]);
      case WorkerUnlock(i) => assert Active(q.workers[i]);
      case WorkerRun(i) => assert Active(q.workers[i]);
      case SpuriousWakeup(i) => assert Active(q.workers[i]);
      case AdderPush(j) => assert OwesSignal(q.adders[j]);
      case AdderUnlock(j) => assert OwesSignal(q.adders[j]);
      case AdderSignal(j, woken) => SignalWakesSomeone(p, j, woken);
      case AdderLock(j) => OthersKept(p, q);
      case ReleaseBroadcast => BroadcastWakes(p);
      case _ => OthersKept(p, q);
    }
  }

  lemma OthersKept(p: Pool, q: Pool)
    requires NoLostWakeup(p) && q.queue == p.queue && q.workers == p.workers && |q.adders| == |p.adders|
    requires forall j :: 0 <= j < |p.adders| && OwesSignal(p.adders[j]) ==> OwesSignal(q.adders[j])
    ensures NoLostWakeup(q)
  {
  }

  lemma SignalWakesSomeone(p: Pool, j: nat, woken: set<nat>)
    requires Enabled(p, AdderSignal(j, woken))
    ensures var q := Next(p, AdderSignal(j, woken)); SomeoneActive(q) || AllExited(q)
  {
    var q := Next(p, AdderSignal(j, woken));
    if !AllExited(q) {
      var i :| 0 <= i < |q.workers| && q.workers[i].pc != Exited;
      if q.workers[i].pc == Waiting {
        assert IsWaiting(p, i);
        var k :| k in woken;
        assert IsWaiting(p, k) && Active(q.workers[k]);
      } else {
        assert Active(q.workers[i]);
      }
    }
  }

  lemma BroadcastWakes(p: Pool)
    requires p.releaser == Broadcasting
    ensures NoLostWakeup(Next(p, ReleaseBroadcast))
  {
    var q := Next(p, ReleaseBroadcast);
    if !AllExited(q) {
      var i :| 0 <= i < |q.workers| && q.workers[i].pc != Exited;
      assert Active(q.workers[i]);
    }
  }

  lemma CountLast(queue: seq<Task>, t: Task)
    requires queue != []
    ensures var last := |queue| - 1;
      multiset(queue)[t] == multiset(queue[..last])[t] + (if queue[last] == t then 1 else 0)
  {
    assert queue == queue[..|queue| - 1] + [queue[|queue| - 1]];
  }

  lemma TakeConserves(p: Pool, i: nat, t: Task)
    requires ConservedFor(p, t) && Enabled(p, WorkerTake(i)) && WorkerValid(p, p.workers[i])
    ensures ConservedFor(Next(p, WorkerTake(i)), t)
  {
    var q := Next(p, WorkerTake(i));
    HoldingAllUpdate(p.workers, i, q.workers[i], t);
    hide HoldingAll;
    assert q.workers == p.workers[i := q.workers[i]];
    if p.queue != [] {
      CountLast(p.queue, t);
    }
  }

  lemma TaskRunConserves(p: Pool, i: nat, t: Task)
    requires ConservedFor(p, t) && Enabled(p, WorkerRun(i)) && WorkerValid(p, p.workers[i])
    ensures ConservedFor(Next(p, WorkerRun(i)), t)
  {
    HoldingAllUpdate(p.workers, i, Next(p, WorkerRun(i)).workers[i], t);
  }

  lemma HoldingsKept(p: Pool, s: Step, t: Task)
    requires Enabled(p, s) && !s.WorkerTake? && !s.WorkerRun?
    requires forall i :: 0 <= i < |p.workers| ==> WorkerValid(p, p.workers[i])
    ensures HoldingAll(Next(p, s).workers, t) == HoldingAll(p.workers, t)
  {
    var q := Next(p, s);
    forall i | 0 <= i < |p.workers| ensures Holding(p.workers[i], t) == Holding(q.workers[i], t) {
    }
    HoldingAllSame(p.workers, q.workers, t);
  }

  lemma PushConserves(p: Pool, j: nat, t: Task)
    requires ConservedFor(p, t) && Enabled(p, AdderPush(j))
    ensures ConservedFor(Next(p, AdderPush(j)), t)
  {
    hide HoldingAll;
    assert Next(p, AdderPush(j)).queue == p.queue + [j];
  }

  lemma OthersConserve(p: Pool, s: Step, t: Task)
    requires ConservedFor(p, t) && Enabled(p, s) && !s.WorkerTake? && !s.WorkerRun? && !s.AdderPush?
    requires forall i :: 0 <= i < |p.workers| ==> WorkerValid(p, p.workers[i])
    ensures ConservedFor(Next(p, s), t)
  {
    HoldingsKept(p, s, t);
    hide HoldingAll, WorkerValid, Woken, WokenAll;
    var q := Next(p, s);
    assert q.queue == p.queue && q.done == p.done && |q.adders| == |p.adders|;
    assert t < |p.adders| ==> (HasPushed(q.adders[t]) <==> HasPushed(p.adders[t]));
    hide Next;
  }

  lemma ConservedKept(p: Pool, s: Step)
    requires Conserved(p) && Enabled(p, s)
    requires forall i :: 0 <= i < |p.workers| ==> WorkerValid(p, p.workers[i])
    ensures Conserved(Next(p, s))
  {
    forall t: Task ensures ConservedFor(Next(p, s), t) {
      match s
      case WorkerTake(i) => TakeConserves(p, i, t);
      case WorkerRun(i) => TaskRunConserves(p, i, t);
      case AdderPush(j) => PushConserves(p, j, t);
      case _ => OthersConserve(p, s, t);
    }
  }

  lemma LateIsLeftKept(p: Pool, s: Step)
    requires LateIsLeft(p) && Enabled(p, s)
    requires forall i :: 0 <= i < |p.workers| ==> WorkerValid(p, p.workers[i])
    ensures LateIsLeft(Next(p, s))
  {
    var q := Next(p, s);
    match s
    case WorkerExit(i) =>
      assert WorkerValid(p, p.workers[i]);
      assert !AllExited(p);
    case AdderSignal(j, woken) =>
      assert AllExited(q) <==> AllExited(p) by { ExitedUnchanged(p, q); }
    case ReleaseBroadcast =>
      assert AllExited(q) <==> AllExited(p) by { ExitedUnchanged(p, q); }
    case WorkerLock(i) => assert q.workers[i].pc != Exited && p.workers[i].pc != Exited;
    case WorkerTest(i) => assert q.workers[i].pc != Exited && p.workers[i].pc != Exited;
    case WorkerTake(i) => assert q.workers[i].pc != Exited && p.workers[i].pc != Exited;
    case WorkerUnlock(i) => assert q.workers[i].pc != Exited && p.workers[i].pc != Exited;
    case WorkerRun(i) => assert q.workers[i].pc != Exited && p.workers[i].pc != Exited;
    case SpuriousWakeup(i) => assert q.workers[i].pc != Exited && p.workers[i].pc != Exited;
    case _ =>
  }

  lemma ExitedUnchanged(p: Pool, q: Pool)
    requires |q.workers| == |p.workers|
    requires forall i :: 0 <= i < |p.workers| ==> (q.workers[i].pc == Exited <==> p.workers[i].pc == Exited)
    ensures AllExited(q) <==> AllExited(p)
  {
    if AllExited(q) {
      forall i | 0 <= i < |p.workers| ensures p.workers[i].pc == Exited {
        assert q.workers[i].pc == Exited;
      }
    }
  }

  lemma StepKeepsInv(p: Pool, s: Step)
    requires Inv(p) && Enabled(p, s)
    ensures Inv(Next(p, s))
  {
    MutualExclusionKept(p, s);
    WorkersValidKept(p, s);
    ReleaserValidKept(p, s);
    NoLostWakeupKept(p, s);
    ConservedKept(p, s);
    LateIsLeftKept(p, s);
  }

  /** The invariant in every reachable state, with no lost wakeup and every task in exactly one place. */
  lemma {:induction false} RunKeepsInv(p: Pool, steps: seq<Step>)
    requires Inv(p) && IsRun(p, steps)
    ensures Inv(After(p, steps))
    decreases |steps|
  {
    if steps == [] {
    } else {
      StepKeepsInv(p, steps[0]);
      RunKeepsInv(Next(p, steps[0]), steps[1..]);
    }
  }

  /**
   What this means in every state a fresh pool can reach: no wakeup is lost; nobody waits once the
   broadcast of the release is done; a worker past the wait finds a task unless it is to exit, so the
   task it runs is never left over from an earlier round; none is about to exit over a queued task;
   and two workers are never inside the mutex together.
   */
  lemma ReachableIsSafe(p: Pool, steps: seq<Step>)
    requires Init(p) && IsRun(p, steps)
    ensures var q := After(p, steps);
      && (q.queue != [] ==> SomeoneActive(q) || SignalOwed(q) || (AllExited(q) && q.late == q.queue))
      && (forall i :: 0 <= i < |q.workers| ==>
            && (BroadcastDone(q.releaser) ==> q.workers[i].pc != Waiting)
            && (q.workers[i].pc == Take && !(q.stop && q.queue == []) ==> q.queue != [])
            && (q.workers[i].pc == ExitHold ==> q.queue == []))
      && (forall i, k :: 0 <= i < k < |q.workers| ==> !WorkerHolds(q.workers[i].pc) || !WorkerHolds(q.workers[k].pc))
  {
    InitHasInv(p);
    RunKeepsInv(p, steps);
    var q := After(p, steps);
    forall i | 0 <= i < |q.workers| ensures WorkerValid(q, q.workers[i]) {
    }
  }
}
