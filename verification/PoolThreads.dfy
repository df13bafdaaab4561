/**
 The pool's steps carried out on the linked list: the list holds the protocol's queue in every reachable
 state, and the write a worker makes to its task outside the mutex never touches a task that is queued.
 */
module PoolThreads {
  import opened Options
  import opened PoolProtocol
  import opened PoolSafety
  import TaskList

  lemma NotPushedNotQueued(p: Pool, j: nat)
    requires Inv(p) && j < |p.adders| && !HasPushed(p.adders[j])
    ensures j !in p.queue
  {
    assert ConservedFor(p, j);
    assert j in p.queue <==> j in multiset(p.queue);
  }

  lemma {:induction false} HoldingCounts(ws: seq<Worker>, i: nat, t: Task)
    requires i < |ws|
    ensures Holding(ws[i], t) <= HoldingAll(ws, t)
    decreases |ws|
  {
    if i == 0 {
    } else {
      HoldingCounts(ws[1..], i - 1, t);
    }
  }

  /** A task in a worker's hands is not queued, and its adder has handed it over. */
  lemma HeldNotQueued(p: Pool, i: nat)
    requires Inv(p) && i < |p.workers| && (p.workers[i].pc == TakenHold || p.workers[i].pc == Running)
    ensures p.workers[i].task.Some?
    ensures var t := p.workers[i].task.value;
      t !in p.queue && t < |p.adders| && HasPushed(p.adders[t])
  {
    assert WorkerValid(p, p.workers[i]);
    var t := p.workers[i].task.value;
    assert ConservedFor(p, t);
    HoldingCounts(p.workers, i, t);
    assert t in p.queue <==> t in multiset(p.queue);
  }

  /** Only three steps touch the list or a task, and one the flag. */
  lemma OthersLeaveTasks(p: Pool, s: Step)
    requires Enabled(p, s) && !s.AdderPush? && !s.WorkerTake? && !s.WorkerRun?
    ensures var q := Next(p, s);
      && q.queue == p.queue && q.stop == (p.stop || s.ReleaseStop?)
      && |q.workers| == |p.workers| && (forall i :: 0 <= i < |p.workers| ==> q.workers[i].task == p.workers[i].task)
      && |q.adders| == |p.adders|
      && (forall j :: 0 <= j < |p.adders| ==> (HasPushed(q.adders[j]) <==> HasPushed(p.adders[j])))
  {
  }

  /** What the threads share and keep: the list, the stop flag, each adder's task and each worker's local variable. */
  class Threads {
    const list: TaskList.TaskQueue
    const tasks: seq<TaskList.TaskNode>
    var held: seq<TaskList.TaskNode?>
    var stop: bool

    ghost predicate Wired()
      reads list, list.nodes
    {
      && list.Valid()
      && (forall j :: 0 <= j < |tasks| ==> tasks[j].call == j)
      && (forall i :: 0 <= i < |list.nodes| ==>
            list.nodes[i].call < |tasks| && tasks[list.nodes[i].call] == list.nodes[i])
    }

    /** The tasks of the adders that have yet to link theirs in are linked to nothing. */
    ghost predicate Unlinked(adders: seq<AdderPc>)
      reads tasks
    {
      && |tasks| == |adders|
      && forall j :: 0 <= j < |tasks| && !HasPushed(adders[j]) ==> tasks[j].prev == null && tasks[j].next == null
    }

    /** Each worker's variable holds the task that the protocol says it holds. */
    ghost predicate VariablesHold(workers: seq<Worker>)
      reads `held
    {
      && |held| == |workers|
      && forall i :: 0 <= i < |held| ==> HoldsTask(held[i], workers[i].task)
    }

    ghost predicate HoldsTask(task: TaskList.TaskNode?, t: Option<Task>) {
      if t.None? then task == null else t.value < |tasks| && task == tasks[t.value]
    }

    /** This is the protocol's state `p`. */
    ghost predicate Stands(p: Pool)
      reads this, list, list.nodes, tasks
    {
      Wired() && list.Holds(p.queue) && stop == p.stop && Unlinked(p.adders) && VariablesHold(p.workers)
    }

    lemma NotListed(p: Pool, t: nat)
      requires Wired() && list.Holds(p.queue) && t < |tasks| && t !in p.queue
      ensures tasks[t] !in list.nodes
    {
      forall i | 0 <= i < |list.nodes|
        ensures list.nodes[i] != tasks[t]
      {
        assert list.nodes[i].call == p.queue[i];
      }
    }

    lemma UnpushedNotListed(p: Pool)
      requires Inv(p) && Wired() && list.Holds(p.queue) && |tasks| == |p.adders|
      ensures forall j :: 0 <= j < |tasks| && !HasPushed(p.adders[j]) ==> tasks[j] !in list.nodes
    {
      forall j | 0 <= j < |tasks| && !HasPushed(p.adders[j])
        ensures tasks[j] !in list.nodes
      {
        NotPushedNotQueued(p, j);
        NotListed(p, j);
      }
    }

    /** A fresh pool of `workers` threads, with the tasks that `adders` calls of `add_task` will allocate. */
    constructor (workers: nat, adders: nat, ghost p: Pool)
      requires Init(p) && |p.workers| == workers && |p.adders| == adders
      ensures Stands(p)
    {
      var empty := new TaskList.TaskQueue();
      var made: seq<TaskList.TaskNode> := [];
      while |made| < adders
        invariant |made| <= adders && empty.Valid() && empty.nodes == []
        invariant forall j :: 0 <= j < |made| ==> made[j].call == j && made[j].prev == null && made[j].next == null
      {
        var task := new TaskList.TaskNode(|made|);
        made := made + [task];
      }
      list, tasks, held, stop := empty, made, seq(workers, _ => null), false;
    }

    /** The critical section of the adder's call `j`. */
    method Push(j: nat, ghost p: Pool)
      requires Inv(p) && Stands(p) && Enabled(p, AdderPush(j))
      modifies list, tasks
      ensures Stands(Next(p, AdderPush(j)))
    {
      UnpushedNotListed(p);
      hide Inv, TaskList.TaskQueue.Valid, TaskList.TaskQueue.Linked;
      list.Add(tasks[j]);
      ghost var q := Next(p, AdderPush(j));
      assert q.queue == p.queue + [j] && q.workers == p.workers;
      assert list.Holds(q.queue);
      assert Unlinked(q.adders);
      assert VariablesHold(q.workers);
    }

    /** The worker's critical section past its wait. */
    method Take(i: nat, ghost p: Pool)
      requires Inv(p) && Stands(p) && Enabled(p, WorkerTake(i))
      modifies this`held, list, tasks
      ensures Stands(Next(p, WorkerTake(i)))
    {
      UnpushedNotListed(p);
      assert list.queue == null <==> p.queue == [];
      assert p.queue != [] || p.stop by {
        assert WorkerValid(p, p.workers[i]);
      }
      hide Inv, TaskList.TaskQueue.Valid, TaskList.TaskQueue.Linked;
      if !(stop && list.queue == null) {
        TakeTask(i, p);
      }
    }

    method TakeTask(i: nat, ghost p: Pool)
      requires Stands(p) && Enabled(p, WorkerTake(i)) && p.queue != []
      requires forall j :: 0 <= j < |tasks| && !HasPushed(p.adders[j]) ==> tasks[j] !in list.nodes
      modifies this`held, list, tasks
      ensures Stands(Next(p, WorkerTake(i)))
    {
      hide TaskList.TaskQueue.Valid, TaskList.TaskQueue.Linked;
      var task := list.TakeLast();
      if task != null {
        held := held[i := task];
      }
    }

    /** The worker's write to the task it removed, long after it let go of the mutex. */
    method StartTask(i: nat, ghost p: Pool)
      requires Inv(p) && Stands(p) && Enabled(p, WorkerRun(i))
      modifies tasks
      ensures Stands(Next(p, WorkerRun(i)))
      ensures p.workers[i].task.Some? && list.Unreachable(tasks[p.workers[i].task.value])
    {
      HeldNotQueued(p, i);
      NotListed(p, p.workers[i].task.value);
      if held[i] != null {
        list.Detach(held[i]);
      }
    }

    lemma StillStands(p: Pool, s: Step)
      requires Enabled(p, s) && !s.AdderPush? && !s.WorkerTake? && !s.WorkerRun?
      requires Wired() && list.Holds(p.queue) && Unlinked(p.adders) && VariablesHold(p.workers)
      requires stop == (p.stop || s.ReleaseStop?)
      ensures Stands(Next(p, s))
    {
      OthersLeaveTasks(p, s);
      hide Next, Wired, TaskList.TaskQueue.Holds;
    }

    /** What a step does to the list; all others leave it alone. */
    method Execute(s: Step, ghost p: Pool)
      requires Inv(p) && Stands(p) && Enabled(p, s)
      modifies this, list, tasks
      ensures Stands(Next(p, s))
    {
      hide Next, Inv, Enabled, Wired, Unlinked, VariablesHold, TaskList.TaskQueue.Holds;
      if s.AdderPush? {
        Push(s.j, p);
      } else if s.WorkerTake? {
        Take(s.i, p);
      } else if s.WorkerRun? {
        StartTask(s.i, p);
      } else {
        if s.ReleaseStop? {
          stop := true;
        }
        StillStands(p, s);
      }
    }

    /** Every run of the protocol is a run on the linked list. */
    method Run(steps: seq<Step>, ghost p: Pool)
      requires Inv(p) && Stands(p) && IsRun(p, steps)
      modifies this, list, tasks
      ensures Stands(After(p, steps))
    {
      ghost var q := p;
      var k := 0;
      while k < |steps|
        invariant k <= |steps| && Inv(q) && Stands(q)
        invariant IsRun(q, steps[k..]) && After(q, steps[k..]) == After(p, steps)
      {
        assert steps[k..][0] == steps[k] && steps[k..][1..] == steps[k + 1..];
        StepKeepsInv(q, steps[k]);
        Execute(steps[k], q);
        q := Next(q, steps[k]);
        k := k + 1;
      }
    }
  }
}
