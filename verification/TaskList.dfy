/**
 The pool's task list: nodes linked both ways, added and removed at the tail, so a stack.  The methods
 are the bodies of the two critical sections that touch it, and the worker's write after the second.
 */
module TaskList {

  class TaskNode {
    var prev: TaskNode?
    var next: TaskNode?
    /** The number of the `add_task` call that allocated it. */
    ghost const call: nat

    constructor (ghost call: nat)
      ensures prev == null && next == null && this.call == call
    {
      prev, next, this.call := null, null, call;
    }
  }

  class TaskQueue {
    var queue: TaskNode?
    var queueTail: TaskNode?
    /** The nodes from head to tail. */
    ghost var nodes: seq<TaskNode>

    ghost predicate Linked()
      reads this, nodes
    {
      && (forall i, j :: 0 <= i < j < |nodes| ==> nodes[i] != nodes[j])
      && (forall i {:trigger nodes[i].prev} :: 0 <= i < |nodes| ==>
        nodes[i].prev == if i == 0 then null else nodes[i - 1])
      && (forall i {:trigger nodes[i].next} :: 0 <= i < |nodes| ==>
        nodes[i].next == if i == |nodes| - 1 then null else nodes[i + 1])
    }

    ghost predicate Valid()
      reads this, nodes
      ensures Valid() ==> (queue == null <==> queueTail == null)
    {
      && Linked()
      && if nodes == [] then queue == null && queueTail == null
         else queue == nodes[0] && queueTail == nodes[|nodes| - 1]
    }

    /** No node of the list points at `t`. */
    ghost predicate Unreachable(t: TaskNode)
      reads this, nodes
    {
      t !in nodes && queue != t && queueTail != t && forall n :: n in nodes ==> n.prev != t && n.next != t
    }

    /** The calls whose tasks are in the list, from head to tail. */
    ghost predicate Holds(calls: seq<nat>)
      reads this
    {
      |nodes| == |calls| && forall i :: 0 <= i < |nodes| ==> nodes[i].call == calls[i]
    }

    /** A list that is linked both ways cannot be left: what is not one of its nodes is not pointed at. */
    lemma OutsideIsUnreachable(t: TaskNode)
      requires Valid() && t !in nodes
      ensures Unreachable(t)
    {
      forall n | n in nodes
        ensures n.prev != t && n.next != t
      {
        var i :| 0 <= i < |nodes| && nodes[i] == n;
        assert nodes[i].prev == null || nodes[i].prev == nodes[i - 1];
        assert nodes[i].next == null || nodes[i].next == nodes[i + 1];
      }
    }

    constructor ()
      ensures Valid() && nodes == []
    {
      queue, queueTail, nodes := null, null, [];
    }

    /** The critical section of `add_task`. */
    method Add(task: TaskNode)
      requires Valid() && task !in nodes && task.prev == null && task.next == null
      modifies this, nodes, task
      ensures Valid() && nodes == old(nodes) + [task]
    {
      if queueTail == null {
        queue := task;
        queueTail := task;
      } else {
        task.prev := queueTail;
        queueTail.next := task;
        queueTail := task;
      }
      nodes := nodes + [task];
    }

    /** The removal in `thread_pool_item`: the last node added comes out first. */
    method TakeLast() returns (t: TaskNode?)
      requires Valid()
      modifies this, nodes
      ensures Valid()
      ensures old(nodes) == [] ==> t == null && nodes == []
      ensures old(nodes) != [] ==>
        var last := |old(nodes)| - 1;
        t == old(nodes)[last] && nodes == old(nodes)[..last] && Unreachable(t)
    {
      t := null;
      if queueTail != null {
        t := queueTail;
        queueTail := queueTail.prev;
        if queueTail != null {
          queueTail.next := null;
        } else {
          queue := null;
        }
        nodes := nodes[..|nodes| - 1];
      }
    }

    /** The worker's write to the task it removed, made without the mutex: the list does not notice. */
    method Detach(t: TaskNode)
      requires Valid() && t !in nodes
      modifies t`prev
      ensures Valid() && Unreachable(t) && t.prev == null
    {
      OutsideIsUnreachable(t);
      t.prev := null;
    }
  }

  /** Adding and then taking gives back the task just added and the list as it was. */
  method AddThenTake(q: TaskQueue, task: TaskNode) returns (t: TaskNode?)
    requires q.Valid() && task !in q.nodes && task.prev == null && task.next == null
    modifies q, q.nodes, task
    ensures q.Valid() && t == task && q.nodes == old(q.nodes)
  {
    q.Add(task);
    t := q.TakeLast();
  }
}
