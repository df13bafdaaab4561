/**
 The event-loop server as it runs: connection records that the kernel's table and the batch of events point
 at, an accept loop, and a coroutine for each client.  A record carries the marks a checking allocator would
 keep, so that using it after it was freed is a fault and not a guess.
 */
module ConnectionServer {
  import opened ConnectionSpec
  import opened ConnectionProperties

  /** An event of a batch: the listening socket's, or the next client's. */
  datatype Event = Listening(accepts: seq<Accepted>) | Ready(answers: seq<Answer>, taken: bool)

  ghost function StepOf(e: Event): Step {
    match e
    case Listening(accepts) => Accept(accepts)
    case Ready(answers, taken) => Dispatch(answers, taken)
  }

  ghost function Script(es: seq<Event>): (steps: seq<Step>)
    ensures |steps| == |es| && forall i :: 0 <= i < |es| ==> steps[i] == StepOf(es[i])
  {
    if es == [] then [] else [StepOf(es[0])] + Script(es[1..])
  }

  /** A record whose coroutine has been destroyed and which has been freed. */
  ghost function Discarded(s: Server, id: Id): Server
    requires id in s.conns
  {
    var c := s.conns[id];
    s.(conns := s.conns[id := c.(destroyed := c.destroyed + 1, freed := c.freed + 1)])
  }

  /** An event in the order of the program: the coroutine runs, may unregister and end, and is then thrown away. */
  lemma DispatchedIs(s: Server, answers: seq<Answer>, taken: bool)
    requires s.pending != [] && s.pending[0] in s.conns && Settles(answers)
    ensures var id, t := s.pending[0], s.(pending := s.pending[1..]);
      var u := Unregistered(t, id, taken);
      Dispatched(s, answers, taken) ==
        if s.conns[id].freed > 0 then s.(fault := true)
        else if Leaves(answers) then Discarded(u.(conns := u.conns[id := u.conns[id].(ended := true)]), id)
        else t
  {
    hide Leaves, Settles;
    var id, t := s.pending[0], s.(pending := s.pending[1..]);
    var u := Unregistered(t, id, taken);
    var e := u.(conns := u.conns[id := u.conns[id].(ended := true)]);
    assert Discarded(e, id).conns == Dropped(t, id, taken).conns;
  }

  /** The script's next step. */
  lemma ScriptStep(s: Server, es: seq<Event>, i: nat)
    requires i < |es| && Runs(s, Script(es[i..]))
    ensures Enabled(s, StepOf(es[i])) && Runs(Next(s, StepOf(es[i])), Script(es[i + 1..]))
    ensures Run(s, Script(es[i..])) == Run(Next(s, StepOf(es[i])), Script(es[i + 1..]))
  {
    hide Enabled, Next;
    var rest := Script(es[i..]);
    assert es[i..][1..] == es[i + 1..];
    assert rest[0] == StepOf(es[i]) && rest[1..] == Script(es[i + 1..]);
  }

  lemma ScriptEnds(s: Server, es: seq<Event>, i: nat)
    requires i == |es|
    ensures Runs(s, Script(es[i..])) && Run(s, Script(es[i..])) == s
  {
    assert es[i..] == [];
  }

  class Connection {
    const fd: Fd
    ghost const id: Id
    /** `is_end` of the record's coroutine. */
    var isEnd: bool
    var closed: nat
    var addressFreed: nat
    var destroyed: nat
    var freed: nat

    ghost function Value(): Conn
      reads this
    {
      Conn(fd, isEnd, closed, addressFreed, destroyed, freed)
    }

    constructor (fd: Fd, ghost id: Id)
      ensures this.fd == fd && this.id == id && Value() == Conn(fd, false, 0, 0, 0, 0)
    {
      this.fd, this.id, isEnd := fd, id, false;
      closed, addressFreed, destroyed, freed := 0, 0, 0, 0;
    }
  }

  class EventLoop {
    var open: set<Fd>
    /** The kernel's table: for each registered descriptor the record it was registered with. */
    var registered: map<Fd, Connection>
    /** The records that the rest of the current batch points at. */
    var evs: seq<Connection>
    var fault: bool
    /** Every record ever allocated; a record's number is its place. */
    ghost var records: seq<Connection>

    ghost predicate Allocated(c: Connection)
      reads `records
    {
      c.id < |records| && records[c.id] == c
    }

    ghost predicate Valid()
      reads this
    {
      && (forall i :: 0 <= i < |records| ==> records[i].id == i)
      && (forall fd :: fd in registered ==> Allocated(registered[fd]))
      && (forall i :: 0 <= i < |evs| ==> Allocated(evs[i]))
    }

    ghost function Conns(): map<Id, Conn>
      reads this, records
    {
      map id: Id | 0 <= id < |records| :: records[id].Value()
    }

    ghost function Table(): map<Fd, Id>
      reads this
    {
      map fd | fd in registered :: registered[fd].id
    }

    ghost function Pending(): seq<Id>
      reads this
    {
      seq(|evs|, i requires 0 <= i < |evs| reads this => evs[i].id)
    }

    ghost function State(): Server
      reads this, records
    {
      Server(Conns(), |records|, open, Table(), Pending(), fault)
    }

    constructor ()
      ensures Valid() && State() == STARTED && records == []
    {
      open, registered, evs, fault, records := {}, map[], [], false, [];
      new;
      assert Conns() == map[] && Table() == map[];
    }

    lemma RecordOf(c: Connection)
      requires Valid() && Allocated(c)
      ensures c.id in State().conns && State().conns[c.id] == c.Value()
    {
    }

    /** A new record for an accepted descriptor. */
    method Allocate(fd: Fd) returns (conn: Connection)
      requires Valid()
      modifies `open, `records
      ensures Valid() && State() == Connected(old(State()), fd, false)
      ensures fresh(conn) && conn.fd == fd && conn.id == |old(records)| && records == old(records) + [conn]
    {
      ghost var s := State();
      conn := new Connection(fd, |records|);
      records := records + [conn];
      open := open + {fd};
      assert Conns() == Connected(s, fd, false).conns;
    }

    /** `poll_add`. */
    method PollAdd(conn: Connection)
      requires Valid() && Allocated(conn)
      modifies `registered
      ensures Valid() && State() == old(State()).(registered := old(State()).registered[conn.fd := conn.id])
    {
      ghost var s := State();
      registered := registered[conn.fd := conn];
      assert Table() == s.registered[conn.fd := conn.id];
    }

    method Connect(fd: Fd, added: bool)
      requires Valid()
      modifies this
      ensures Valid() && State() == Connected(old(State()), fd, added)
      ensures |records| == |old(records)| + 1 && old(records) <= records && fresh(records[|old(records)|])
    {
      hide Valid, Conns, Table, Pending;
      var conn := Allocate(fd);
      if added {
        PollAdd(conn);
      }
    }

    /** `handle_accept`: connections are taken until the kernel has none or something goes wrong. */
    method HandleAccept(answers: seq<Accepted>)
      requires Valid() && Acceptable(open, answers)
      modifies this
      ensures Valid() && State() == AcceptAll(old(State()), answers)
      ensures old(records) <= records && forall i :: |old(records)| <= i < |records| ==> fresh(records[i])
    {
      hide Valid, Conns, Table, Pending;
      var i := 0;
      assert answers[0..] == answers;
      while true
        invariant i <= |answers| && Valid()
        invariant Acceptable(open, answers[i..])
        invariant AcceptAll(State(), answers[i..]) == AcceptAll(old(State()), answers)
        invariant old(records) <= records && forall i :: |old(records)| <= i < |records| ==> fresh(records[i])
        decreases |answers| - i
      {
        var answer := answers[i];
        if !answer.Client? {
          return;
        }
        Connect(answer.fd, answer.added);
        assert answers[i..][1..] == answers[i + 1..];
        i := i + 1;
      }
    }

    /** The kernel takes a registration back. */
    method Unregister(fd: Fd)
      requires Valid()
      modifies `registered
      ensures Valid() && registered == old(registered) - {fd}
      ensures State() == old(State()).(registered := old(State()).registered - {fd})
    {
      ghost var s := State();
      registered := registered - {fd};
      assert Table() == s.registered - {fd};
    }

    /** The address is freed and the descriptor closed. */
    method GiveUp(c: Connection)
      requires Valid() && Allocated(c)
      modifies `open, c`closed, c`addressFreed
      ensures Valid() && open == old(open) - {c.fd}
      ensures c.closed == old(c.closed) + 1 && c.addressFreed == old(c.addressFreed) + 1
      ensures c.id in old(State()).conns
      ensures State() == old(State()).(open := open, conns := old(State()).conns[c.id := c.Value()])
    {
      ghost var s := State();
      c.addressFreed := c.addressFreed + 1;
      c.closed := c.closed + 1;
      open := open - {c.fd};
      assert Conns() == s.conns[c.id := c.Value()];
    }

    /**
     `poll_delete`.  Refused, it gives nothing up and the descriptor stays registered and open.  Taken, it
     closes the descriptor and frees the address, once each, and the kernel knows the record no more; no
     other record and no other registration changes.
     */
    method PollDelete(c: Connection, taken: bool)
      requires Valid() && Allocated(c)
      modifies `open, `registered, c`closed, c`addressFreed
      ensures Valid()
      ensures !taken ==> open == old(open) && registered == old(registered) && c.Value() == old(c.Value())
      ensures taken ==> c.fd !in registered && c.fd !in open
      ensures taken ==> c.closed == old(c.closed) + 1 && c.addressFreed == old(c.addressFreed) + 1
      ensures taken ==> forall fd :: fd != c.fd ==> (fd in open <==> fd in old(open))
      ensures taken ==> forall fd :: fd != c.fd ==>
        (fd in registered <==> fd in old(registered)) && (fd in registered ==> registered[fd] == old(registered[fd]))
      ensures State() == Unregistered(old(State()), c.id, taken)
    {
      if !taken {
        return;
      }
      RecordOf(c);
      hide Valid, Conns, Table, Pending;
      Unregister(c.fd);
      GiveUp(c);
    }

    /** The way out of `client_routine`'s loop: unregistered, and then over. */
    method LeaveRoutine(c: Connection, taken: bool)
      requires Valid() && Allocated(c)
      modifies `open, `registered, c
      ensures Valid() && c.isEnd && c.destroyed == old(c.destroyed) && c.freed == old(c.freed)
      ensures taken ==> c.fd !in registered && c.fd !in open
      ensures taken ==> c.closed == old(c.closed) + 1 && c.addressFreed == old(c.addressFreed) + 1
      ensures !taken ==>
        registered == old(registered) && open == old(open) && c.Value() == old(c.Value()).(ended := true)
      ensures c.id in old(State()).conns
      ensures var u := Unregistered(old(State()), c.id, taken);
              State() == u.(conns := u.conns[c.id := u.conns[c.id].(ended := true)])
    {
      PollDelete(c, taken);
      ghost var u := State();
      c.isEnd := true;
      assert Conns() == u.conns[c.id := u.conns[c.id].(ended := true)];
    }

    /** `client_routine` from one resumption to its next yield or its end. */
    method ClientRoutine(c: Connection, answers: seq<Answer>, taken: bool)
      requires Valid() && Allocated(c) && Settles(answers)
      modifies `open, `registered, c
      ensures Valid()
      ensures Leaves(answers) ==>
                var u := Unregistered(old(State()), c.id, taken);
                State() == u.(conns := u.conns[c.id := u.conns[c.id].(ended := true)])
      ensures !Leaves(answers) ==> State() == old(State()) && c.isEnd == old(c.isEnd)
      ensures Leaves(answers) ==> c.isEnd
      ensures Replies(answers) ==> State() == old(State()) && c.Value() == old(c.Value())
      ensures HangsUp(answers) ==> c.isEnd && c.destroyed == old(c.destroyed) && c.freed == old(c.freed)
      ensures HangsUp(answers) && taken ==> c.fd !in registered && c.fd !in open
      ensures HangsUp(answers) && taken ==>
        c.closed == old(c.closed) + 1 && c.addressFreed == old(c.addressFreed) + 1
      ensures HangsUp(answers) && !taken ==>
        registered == old(registered) && open == old(open) && c.Value() == old(c.Value()).(ended := true)
    {
      RepliesOrHangsUp(answers);
      RecordOf(c);
      hide Replies, HangsUp, Unregistered, Valid, Conns, Table, Pending;
      var i := 0;
      while ReadsAgain(answers[i])
        invariant i < |answers| && Settles(answers[i..]) && Leaves(answers[i..]) == Leaves(answers)
        decreases |answers| - i
        modifies {}
      {
        assert answers[i..][1..] == answers[i + 1..];
        i := i + 1;
      }
      if answers[i] == WouldBlock(true) {
        return;
      }
      LeaveRoutine(c, taken);
    }

    /** The coroutine of `c` is destroyed and its record freed. */
    method Discard(c: Connection)
      requires Valid() && Allocated(c)
      modifies c`destroyed, c`freed
      ensures Valid() && State() == Discarded(old(State()), c.id)
    {
      ghost var s := State();
      c.destroyed := c.destroyed + 1;
      c.freed := c.freed + 1;
      assert Conns() == Discarded(s, c.id).conns;
    }

    /** The next event of the batch. */
    method TakeEvent() returns (c: Connection)
      requires Valid() && evs != []
      modifies `evs
      ensures Valid() && c == old(evs[0]) && Allocated(c)
      ensures old(State()).pending != [] && old(State()).pending[0] == c.id
      ensures State() == old(State()).(pending := old(State()).pending[1..])
    {
      ghost var s := State();
      c := evs[0];
      evs := evs[1..];
      assert Pending() == s.pending[1..];
    }

    /** The event's record was freed before. */
    method MarkFault(answers: seq<Answer>, taken: bool)
      requires Valid() && evs != [] && evs[0].freed > 0 && Settles(answers)
      modifies `fault
      ensures Valid() && State() == old(State()).(fault := true)
      ensures old(State()).pending != [] && old(State()).pending[0] in old(State()).conns
      ensures State() == Dispatched(old(State()), answers, taken)
    {
      RecordOf(evs[0]);
      fault := true;
    }

    /** A client's event: its coroutine is resumed, and a connection whose coroutine ended is thrown away. */
    method HandleClient(answers: seq<Answer>, taken: bool)
      requires Valid() && Inv(State()) && evs != [] && Settles(answers)
      modifies this`open, this`registered, this`evs, this`fault, evs[0]
      ensures Valid() && State() == Dispatched(old(State()), answers, taken)
    {
      if evs[0].freed > 0 {
        MarkFault(answers, taken);
        return;
      }
      RecordOf(evs[0]);
      assert !evs[0].isEnd;
      ghost var s := State();
      hide Inv, Valid, State, Leaves, Settles;
      var c := TakeEvent();
      DispatchedIs(s, answers, taken);
      hide Dispatched, Unregistered, Discarded;
      ClientRoutine(c, answers, taken);
      if c.isEnd {
        Discard(c);
      }
    }

    /** `kevent`: the batch holds what is registered for each reported descriptor. */
    method Wait(batch: seq<Fd>)
      requires Valid() && !fault && Enabled(State(), Poll(batch))
      modifies `evs
      ensures Valid() && State() == Next(old(State()), Poll(batch))
      ensures |evs| == |batch| && forall i :: 0 <= i < |batch| ==>
        batch[i] in registered && evs[i] == registered[batch[i]]
    {
      var table := registered;
      assert forall i :: 0 <= i < |batch| ==> batch[i] in batch;
      evs := seq(|batch|, i requires 0 <= i < |batch| => table[batch[i]]);
      assert Pending() == Next(old(State()), Poll(batch)).pending;
    }

    method Handle(e: Event)
      requires Valid() && Inv(State()) && !fault && Enabled(State(), StepOf(e))
      modifies this, records
      ensures Valid() && State() == Next(old(State()), StepOf(e))
      ensures old(records) <= records && forall i :: |old(records)| <= i < |records| ==> fresh(records[i])
    {
      hide Inv, AcceptAll, Dispatched;
      match e {
        case Listening(accepts) => HandleAccept(accepts);
        case Ready(answers, taken) => HandleClient(answers, taken);
      }
    }

    /** The events of a batch in order; the rest is left alone after a fault. */
    method HandleAll(events: seq<Event>)
      requires Valid() && Inv(State()) && Runs(State(), Script(events))
      modifies this, records
      ensures Valid() && Inv(State()) && State() == Run(old(State()), Script(events))
    {
      hide Inv, Next, Enabled, Valid, Conns, Table, Pending, Script, Run, Runs;
      ghost var s := State();
      var i := 0;
      assert events[0..] == events;
      while i < |events|
        invariant i <= |events| && Valid() && Inv(State())
        invariant old(records) <= records && forall i :: |old(records)| <= i < |records| ==> fresh(records[i])
        invariant Runs(State(), Script(events[i..])) && Run(State(), Script(events[i..])) == Run(s, Script(events))
      {
        ghost var t := State();
        ScriptStep(t, events, i);
        StepKeepsInv(t, StepOf(events[i]));
        if fault {
          FaultStays(t, Script(events[i..]));
          return;
        }
        Handle(events[i]);
        i := i + 1;
      }
      ScriptEnds(State(), events, i);
    }

    /** One turn of the endless loop: a poll, then every event of its batch in order. */
    method Turn(batch: seq<Fd>, events: seq<Event>)
      requires Valid() && Inv(State()) && !fault && Runs(State(), [Poll(batch)] + Script(events))
      modifies this, records
      ensures Valid() && Inv(State())
      ensures State() == Run(old(State()), [Poll(batch)] + Script(events))
    {
      ghost var s, steps := State(), [Poll(batch)] + Script(events);
      assert steps[0] == Poll(batch) && steps[1..] == Script(events);
      hide Inv, Next, Enabled, Valid, Conns, Table, Pending, Script;
      StepKeepsInv(s, Poll(batch));
      Wait(batch);
      HandleAll(events);
    }
  }
}
