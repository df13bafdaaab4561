/**
 The connections of the event-loop server: which of them are registered with the kernel, which a batch of
 events still refers to, and what has been closed and freed. A connection record is known by a number that
 is never given out twice; descriptors are the kernel's and come back once closed.
 */
module ConnectionSpec {
  type Fd = nat
  type Id = nat

  /** A connection record with the number of times each thing it owns has been given up. */
  datatype Conn = Conn(fd: Fd, ended: bool, closed: nat, addressFreed: nat, destroyed: nat, freed: nat)
  {
    /** In use: the coroutine has not ended and nothing has been given up. */
    predicate Live() {
      !ended && closed == 0 && addressFreed == 0 && destroyed == 0 && freed == 0
    }

    /** Ended, and everything given up exactly once. */
    predicate Released() {
      ended && closed == 1 && addressFreed == 1 && destroyed == 1 && freed == 1
    }

    /** Ended and freed while its descriptor stays open and its address allocated. */
    predicate Dangling() {
      ended && closed == 0 && addressFreed == 0 && destroyed == 1 && freed == 1
    }
  }

  /**
   `open` are the descriptors accepted and not closed, `registered` what the kernel holds for each descriptor,
   `pending` the connections of the rest of the current batch. `fault` is set once an event leads to a
   freed record; nothing is said about what happens then, so such a state stays as it is.
   */
  datatype Server = Server(conns: map<Id, Conn>, next: Id, open: set<Fd>, registered: map<Fd, Id>,
                           pending: seq<Id>, fault: bool)

  const STARTED := Server(map[], 0, {}, map[], [], false)

  /** What a `read` in the coroutine answers, and for an empty socket whether the reply could be written. */
  datatype Answer = Bytes | EndOfFile | WouldBlock(replied: bool) | Interrupted | Broken

  /** After these the coroutine reads again; after the others it yields or leaves its loop. */
  predicate ReadsAgain(a: Answer) {
    a.Bytes? || a.Interrupted?
  }

  /** The answers of one resumption: one that makes the coroutine yield or leave comes last. */
  predicate Settles(answers: seq<Answer>) {
    answers != [] && !ReadsAgain(answers[|answers| - 1])
  }

  /** Does this resumption end the coroutine? The first answer that does not make it read again decides. */
  predicate Leaves(answers: seq<Answer>)
    requires Settles(answers)
  {
    if ReadsAgain(answers[0]) then Leaves(answers[1..]) else answers[0] != WouldBlock(true)
  }

  /** What `accept` and what follows it give; `WouldBlockNow` and `Failed` carry no connection. */
  datatype Accepted =
    | Client(fd: Fd, added: bool)
    | WouldBlockNow
    | Failed

  /** After these the accept loop goes on. */
  predicate AcceptsAgain(a: Accepted) {
    a.Client?
  }

  /** The answers of one accept loop, each descriptor new. */
  ghost predicate Acceptable(open: set<Fd>, answers: seq<Accepted>)
    decreases |answers|
  {
    answers != [] &&
    (answers[0].Client? ==> answers[0].fd !in open) &&
    (AcceptsAgain(answers[0]) ==> Acceptable(open + {answers[0].fd}, answers[1..]))
  }

  /** A new connection, registered when the kernel takes the registration. */
  function Connected(s: Server, fd: Fd, added: bool): Server {
    s.(conns := s.conns[s.next := Conn(fd, false, 0, 0, 0, 0)], next := s.next + 1, open := s.open + {fd},
       registered := if added then s.registered[fd := s.next] else s.registered)
  }

  ghost function AcceptAll(s: Server, answers: seq<Accepted>): Server
    requires Acceptable(s.open, answers)
    decreases |answers|
  {
    match answers[0]
    case Client(fd, added) => AcceptAll(Connected(s, fd, added), answers[1..])
    case _ => s
  }

  /** Unregistering a connection; a refusal of the kernel leaves everything as it is. */
  function Unregistered(s: Server, id: Id, taken: bool): Server
    requires id in s.conns
  {
    if !taken then s else
    var c := s.conns[id];
    s.(registered := s.registered - {c.fd}, open := s.open - {c.fd},
       conns := s.conns[id := c.(closed := c.closed + 1, addressFreed := c.addressFreed + 1)])
  }

  /** The end of a connection: unregistered, its coroutine over and destroyed, its record freed. */
  function Dropped(s: Server, id: Id, taken: bool): Server
    requires id in s.conns
  {
    var u := Unregistered(s, id, taken);
    var c := u.conns[id];
    u.(conns := u.conns[id := c.(ended := true, destroyed := c.destroyed + 1, freed := c.freed + 1)])
  }

  /** One event of the batch. */
  function Dispatched(s: Server, answers: seq<Answer>, taken: bool): Server
    requires s.pending != [] && s.pending[0] in s.conns && Settles(answers)
  {
    var id := s.pending[0];
    var t := s.(pending := s.pending[1..]);
    if s.conns[id].freed > 0 then s.(fault := true)
    else if Leaves(answers) then Dropped(t, id, taken) else t
  }

  /** A poll that answers with a batch, an accept event, or a client's event. */
  datatype Step =
    | Poll(batch: seq<Fd>)
    | Accept(accepts: seq<Accepted>)
    | Dispatch(answers: seq<Answer>, taken: bool)

  predicate Distinct<T(==)>(xs: seq<T>) {
    forall i, j :: 0 <= i < j < |xs| ==> xs[i] != xs[j]
  }

  /** A batch names each registered descriptor at most once, and is read to its end before the next poll. */
  ghost predicate Enabled(s: Server, step: Step) {
    match step
    case Poll(batch) => s.pending == [] && Distinct(batch) && forall fd :: fd in batch ==> fd in s.registered
    case Accept(accepts) => Acceptable(s.open, accepts)
    case Dispatch(answers, _) => s.pending != [] && s.pending[0] in s.conns && Settles(answers)
  }

  ghost function Next(s: Server, step: Step): Server
    requires Enabled(s, step)
  {
    if s.fault then s else
    match step
    case Poll(batch) => s.(pending := seq(|batch|, i requires 0 <= i < |batch| => s.registered[batch[i]]))
    case Accept(accepts) => AcceptAll(s, accepts)
    case Dispatch(answers, taken) => Dispatched(s, answers, taken)
  }

  ghost predicate Runs(s: Server, steps: seq<Step>)
    decreases |steps|
  {
    steps == [] || (Enabled(s, steps[0]) && Runs(Next(s, steps[0]), steps[1..]))
  }

  ghost function Run(s: Server, steps: seq<Step>): Server
    requires Runs(s, steps)
    decreases |steps|
  {
    if steps == [] then s else Run(Next(s, steps[0]), steps[1..])
  }

  /** The kernel refuses the unregistration of a connection that is being dropped. */
  predicate Refused(step: Step) {
    step.Dispatch? && !step.taken && Settles(step.answers) && Leaves(step.answers)
  }
}
