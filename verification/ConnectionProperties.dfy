/** What holds of the connections over every run of the event loop. */
module ConnectionProperties {
  import opened ConnectionSpec

  /** Each record is live, released or dangling; a descriptor not closed is open and has one record. */
  ghost predicate RecordsOk(s: Server) {
    && (forall id :: id in s.conns ==> id < s.next)
    && (forall id :: id in s.conns ==> s.conns[id].Live() || s.conns[id].Released() || s.conns[id].Dangling())
    && (forall id :: id in s.conns && s.conns[id].closed == 0 ==> s.conns[id].fd in s.open)
    && (forall a, b :: a in s.conns && b in s.conns && a != b && s.conns[a].closed == 0 && s.conns[b].closed == 0 ==>
          s.conns[a].fd != s.conns[b].fd)
  }

  /** A connection the kernel reports under its own descriptor, which is not closed. */
  ghost predicate Known(s: Server, id: Id) {
    id in s.conns && s.conns[id].closed == 0 && s.conns[id].fd in s.registered && s.registered[s.conns[id].fd] == id
  }

  ghost predicate RegistrationsOk(s: Server) {
    && (forall fd :: fd in s.registered ==>
          s.registered[fd] in s.conns && s.conns[s.registered[fd]].fd == fd && s.conns[s.registered[fd]].closed == 0)
    && (forall id :: id in s.conns && s.conns[id].Dangling() ==> Known(s, id))
    && Distinct(s.pending)
    && (forall i :: 0 <= i < |s.pending| ==> Known(s, s.pending[i]))
  }

  /** Some record has been freed while its registration stands. */
  ghost predicate SomeDangling(s: Server) {
    exists id :: id in s.conns && s.conns[id].Dangling()
  }

  ghost predicate Inv(s: Server) {
    RecordsOk(s) && RegistrationsOk(s) && (s.fault ==> SomeDangling(s))
  }

  lemma ConnectedKeepsRecords(s: Server, fd: Fd, added: bool)
    requires RecordsOk(s) && fd !in s.open
    ensures RecordsOk(Connected(s, fd, added))
    ensures SomeDangling(Connected(s, fd, added)) <==> SomeDangling(s)
  {
    var t := Connected(s, fd, added);
    assert forall id :: id in s.conns ==> t.conns[id] == s.conns[id];
  }

  lemma ConnectedKeepsRegistrations(s: Server, fd: Fd, added: bool)
    requires RecordsOk(s) && RegistrationsOk(s) && fd !in s.open
    ensures RegistrationsOk(Connected(s, fd, added))
  {
    var t := Connected(s, fd, added);
    assert fd !in s.registered;
    forall id | Known(s, id)
      ensures Known(t, id)
    {
    }
    assert forall id :: id in t.conns && id != s.next ==> t.conns[id] == s.conns[id];
  }

  lemma ConnectedKeepsInv(s: Server, fd: Fd, added: bool)
    requires Inv(s) && fd !in s.open
    ensures Inv(Connected(s, fd, added))
    ensures SomeDangling(Connected(s, fd, added)) <==> SomeDangling(s)
  {
    hide RecordsOk, RegistrationsOk, SomeDangling;
    ConnectedKeepsRecords(s, fd, added);
    ConnectedKeepsRegistrations(s, fd, added);
  }

  lemma {:induction false} AcceptAllKeepsInv(s: Server, answers: seq<Accepted>)
    requires Inv(s) && Acceptable(s.open, answers)
    ensures Inv(AcceptAll(s, answers))
    ensures SomeDangling(AcceptAll(s, answers)) <==> SomeDangling(s)
    decreases |answers|
  {
    if AcceptsAgain(answers[0]) {
      ConnectedKeepsInv(s, answers[0].fd, answers[0].added);
      AcceptAllKeepsInv(Connected(s, answers[0].fd, answers[0].added), answers[1..]);
    }
  }

  /** Dropping a connection changes its own record, and its descriptor's registration if that is taken back. */
  ghost predicate Drops(s: Server, t: Server, id: Id, taken: bool)
    requires id in s.conns
  {
    && t.conns.Keys == s.conns.Keys
    && (forall other :: other in s.conns && other != id ==> t.conns[other] == s.conns[other])
    && t.conns[id] == (if taken then Conn(s.conns[id].fd, true, 1, 1, 1, 1) else Conn(s.conns[id].fd, true, 0, 0, 1, 1))
    && t.registered == (if taken then s.registered - {s.conns[id].fd} else s.registered)
    && t.open == (if taken then s.open - {s.conns[id].fd} else s.open)
    && t.next == s.next && t.pending == s.pending && t.fault == s.fault
  }

  lemma DroppedIs(s: Server, id: Id, taken: bool)
    requires id in s.conns && s.conns[id].Live()
    ensures Drops(s, Dropped(s, id, taken), id, taken)
  {
  }

  lemma DropsKeepsRecords(s: Server, t: Server, id: Id, taken: bool)
    requires RecordsOk(s) && id in s.conns && s.conns[id].Live() && Drops(s, t, id, taken)
    ensures RecordsOk(t)
  {
    assert forall other :: other in t.conns && t.conns[other].closed == 0 ==> s.conns[other].closed == 0;
    forall other | other in t.conns
      ensures t.conns[other].Live() || t.conns[other].Released() || t.conns[other].Dangling()
      ensures t.conns[other].closed == 0 ==> t.conns[other].fd in t.open
    {
      assert other != id ==> t.conns[other] == s.conns[other];
    }
  }

  lemma DropsKeepsRegistrations(s: Server, t: Server, id: Id, taken: bool)
    requires RecordsOk(s) && RegistrationsOk(s) && Known(s, id) && s.conns[id].Live() && id !in s.pending
    requires Drops(s, t, id, taken)
    ensures RegistrationsOk(t)
  {
    forall other | Known(s, other) && other != id
      ensures Known(t, other)
    {
    }
    assert !taken ==> Known(t, id);
    forall fd | fd in t.registered
      ensures t.registered[fd] in t.conns && t.conns[t.registered[fd]].fd == fd && t.conns[t.registered[fd]].closed == 0
    {
      assert t.registered[fd] == s.registered[fd];
    }
  }

  lemma DroppedKeepsInv(s: Server, id: Id, taken: bool)
    requires Inv(s) && Known(s, id) && s.conns[id].Live() && id !in s.pending
    ensures Inv(Dropped(s, id, taken))
    ensures SomeDangling(Dropped(s, id, taken)) <==> SomeDangling(s) || !taken
    ensures taken ==> Dropped(s, id, taken).conns[id].Released()
    ensures !taken ==> Dropped(s, id, taken).conns[id].Dangling()
  {
    hide Dropped, RecordsOk, RegistrationsOk;
    var t := Dropped(s, id, taken);
    DroppedIs(s, id, taken);
    DropsKeepsRecords(s, t, id, taken);
    DropsKeepsRegistrations(s, t, id, taken);
    if SomeDangling(s) {
      var d :| d in s.conns && s.conns[d].Dangling();
      assert t.conns[d].Dangling();
    }
    if SomeDangling(t) && taken {
      var d :| d in t.conns && t.conns[d].Dangling();
      assert s.conns[d].Dangling();
    }
  }

  /** Reading on in the batch, or marking a fault, leaves records and registrations as they are. */
  lemma SameTables(s: Server, t: Server)
    requires RecordsOk(s) && RegistrationsOk(s) && t == s.(pending := t.pending, fault := t.fault)
    requires Distinct(t.pending) && forall i :: 0 <= i < |t.pending| ==> Known(s, t.pending[i])
    ensures RecordsOk(t) && RegistrationsOk(t) && (SomeDangling(t) <==> SomeDangling(s))
  {
    assert forall id :: Known(s, id) <==> Known(t, id);
  }

  lemma DispatchedKeepsInv(s: Server, answers: seq<Answer>, taken: bool)
    requires Inv(s) && !s.fault && s.pending != [] && s.pending[0] in s.conns && Settles(answers)
    ensures var t := Dispatched(s, answers, taken);
            && Inv(t) && (t.fault ==> SomeDangling(s))
            && (!t.fault ==> (SomeDangling(t) <==> SomeDangling(s) || (!taken && Leaves(answers))))
  {
    var id := s.pending[0];
    assert Known(s, id);
    var t := s.(pending := s.pending[1..]);
    SameTables(s, t);
    SameTables(s, s.(fault := true));
    if s.conns[id].freed == 0 {
      assert s.conns[id].Live();
      hide RecordsOk, RegistrationsOk, Dropped, Leaves, Settles;
      if Leaves(answers) {
        DroppedKeepsInv(t, id, taken);
      }
    }
  }

  /** Every step keeps the invariant, and a record comes to dangle exactly when an unregistration is refused. */
  lemma StepKeepsInv(s: Server, step: Step)
    requires Inv(s) && Enabled(s, step)
    ensures Inv(Next(s, step))
    ensures !s.fault && Next(s, step).fault ==> SomeDangling(s)
    ensures !Next(s, step).fault ==> (SomeDangling(Next(s, step)) <==> SomeDangling(s) || Refused(step))
  {
    hide RecordsOk, Dispatched;
    if !s.fault {
      match step
      case Poll(batch) =>
        assert forall fd :: fd in s.registered ==> Known(s, s.registered[fd]);
        SameTables(s, Next(s, step));
      case Accept(accepts) =>
        AcceptAllKeepsInv(s, accepts);
        AcceptAllNoFault(s, accepts);
      case Dispatch(answers, taken) =>
        DispatchedKeepsInv(s, answers, taken);
    }
  }

  lemma {:induction false} AcceptAllNoFault(s: Server, answers: seq<Accepted>)
    requires Acceptable(s.open, answers)
    ensures AcceptAll(s, answers).fault == s.fault && AcceptAll(s, answers).pending == s.pending
    decreases |answers|
  {
    if AcceptsAgain(answers[0]) {
      AcceptAllNoFault(Connected(s, answers[0].fd, answers[0].added), answers[1..]);
    }
  }

  lemma {:induction false} FaultStays(s: Server, steps: seq<Step>)
    requires Runs(s, steps) && s.fault
    ensures Run(s, steps) == s
    decreases |steps|
  {
    if steps == [] {
    } else {
      FaultStays(s, steps[1..]);
    }
  }

  lemma {:induction false} RunKeepsInv(s: Server, steps: seq<Step>)
    requires Inv(s) && Runs(s, steps)
    ensures Inv(Run(s, steps))
    decreases |steps|
  {
    if steps == [] {
    } else {
      StepKeepsInv(s, steps[0]);
      RunKeepsInv(Next(s, steps[0]), steps[1..]);
    }
  }

  /** A run without a fault leaves a dangling record exactly when it had one or some unregistration was refused. */
  lemma {:induction false} DanglingIff(s: Server, steps: seq<Step>)
    requires Inv(s) && Runs(s, steps) && !Run(s, steps).fault
    ensures SomeDangling(Run(s, steps)) <==> SomeDangling(s) || exists step :: step in steps && Refused(step)
    decreases |steps|
  {
    if steps == [] {
    } else {
      var t := Next(s, steps[0]);
      if t.fault {
        FaultStays(t, steps[1..]);
      }
      StepKeepsInv(s, steps[0]);
      DanglingIff(t, steps[1..]);
      assert forall step :: step in steps <==> step == steps[0] || step in steps[1..];
    }
  }

  /**
   While no unregistration is refused, no event leads to a freed record and nothing is given up twice or
   forgotten.
   */
  lemma {:induction false} ConnectionsAreOwned(steps: seq<Step>)
    requires Runs(STARTED, steps) && forall step :: step in steps ==> !Refused(step)
    ensures var s := Run(STARTED, steps);
            && !s.fault
            && (forall fd :: fd in s.registered ==> s.registered[fd] in s.conns && s.conns[s.registered[fd]].Live())
            && (forall id :: id in s.pending ==> id in s.conns && s.conns[id].Live())
            && (forall id :: id in s.conns ==> s.conns[id].Live() || s.conns[id].Released())
  {
    NeverDangles(STARTED, steps);
  }

  lemma {:induction false} NeverDangles(s: Server, steps: seq<Step>)
    requires Inv(s) && !SomeDangling(s) && Runs(s, steps) && forall step :: step in steps ==> !Refused(step)
    ensures Inv(Run(s, steps)) && !SomeDangling(Run(s, steps))
    decreases |steps|
  {
    if steps == [] {
    } else {
      StepKeepsInv(s, steps[0]);
      NeverDangles(Next(s, steps[0]), steps[1..]);
    }
  }

  // ---------------------------------------------------------------- what the answers decide, one by one

  /** The coroutine gets as far as its answer `k`: all before it are bytes read or interruptions. */
  ghost predicate ReachesAnswer(answers: seq<Answer>, k: nat) {
    k < |answers| && forall j :: 0 <= j < k ==> answers[j].Bytes? || answers[j].Interrupted?
  }

  /** The peer has closed, the read failed, or the reply could not be written. */
  ghost predicate EndsClient(a: Answer) {
    a.EndOfFile? || a.Broken? || a == WouldBlock(false)
  }

  /** Everything that arrived is read and answered, and the coroutine waits for more. */
  ghost predicate Replies(answers: seq<Answer>) {
    exists k: nat :: ReachesAnswer(answers, k) && answers[k] == WouldBlock(true)
  }

  ghost predicate HangsUp(answers: seq<Answer>) {
    exists k: nat :: ReachesAnswer(answers, k) && EndsClient(answers[k])
  }

  lemma {:induction false} LeavesAt(answers: seq<Answer>, k: nat)
    requires ReachesAnswer(answers, k) && (answers[k] == WouldBlock(true) || EndsClient(answers[k]))
    ensures k == |answers| - 1 ==> Settles(answers)
    ensures Settles(answers) ==> (Leaves(answers) <==> EndsClient(answers[k]))
  {
    if k == 0 {
    } else {
      assert answers[1..][k - 1] == answers[k];
      LeavesAt(answers[1..], k - 1);
    }
  }

  /** One of the two, and not both. */
  lemma {:induction false} RepliesOrHangsUp(answers: seq<Answer>)
    requires Settles(answers)
    ensures Leaves(answers) <==> HangsUp(answers)
    ensures !Leaves(answers) <==> Replies(answers)
  {
    var k := DecidingAnswer(answers);
    if i: nat :| ReachesAnswer(answers, i) && answers[i] == WouldBlock(true) {
      LeavesAt(answers, i);
    }
    if i: nat :| ReachesAnswer(answers, i) && EndsClient(answers[i]) {
      LeavesAt(answers, i);
    }
  }

  lemma {:induction false} DecidingAnswer(answers: seq<Answer>) returns (k: nat)
    requires Settles(answers)
    ensures ReachesAnswer(answers, k) && (answers[k] == WouldBlock(true) || EndsClient(answers[k]))
    decreases |answers|
  {
    if answers[0] == WouldBlock(true) || EndsClient(answers[0]) {
      k := 0;
    } else {
      var m := DecidingAnswer(answers[1..]);
      k := m + 1;
      assert forall j :: 1 <= j < |answers| ==> answers[j] == answers[1..][j - 1];
    }
  }

  /**
   A live client's event.  Requests of any number of reads that end with an empty socket and a reply leave
   it as it was; the end of the stream, an error or a reply that fails gives up all that it has, except
   what a refused unregistration keeps.
   */
  lemma EventDoes(s: Server, answers: seq<Answer>, taken: bool, k: nat)
    requires !s.fault && s.pending != [] && s.pending[0] in s.conns && s.conns[s.pending[0]].Live()
    requires ReachesAnswer(answers, k) && k == |answers| - 1
    requires answers[k] == WouldBlock(true) || EndsClient(answers[k])
    ensures Enabled(s, Dispatch(answers, taken))
    ensures var t, id := Next(s, Dispatch(answers, taken)), s.pending[0];
      && t.pending == s.pending[1..]
      && (answers[k] == WouldBlock(true) ==> t == s.(pending := t.pending) && t.conns[id].Live())
      && (EndsClient(answers[k]) ==> Drops(s.(pending := t.pending), t, id, taken))
  {
    LeavesAt(answers, k);
    hide Leaves, Settles, Dropped;
    DroppedIs(s.(pending := s.pending[1..]), s.pending[0], taken);
  }

  /** All answers of an accept loop before `k` are clients, and the one at `k` is not. */
  ghost predicate TakesUntil(answers: seq<Accepted>, k: nat) {
    k < |answers| && !answers[k].Client? && forall j :: 0 <= j < k ==> answers[j].Client?
  }

  /** An accept loop may get any clients whose descriptors are new and all different. */
  lemma {:induction false} AcceptableIff(open: set<Fd>, answers: seq<Accepted>, k: nat)
    requires TakesUntil(answers, k)
    ensures Acceptable(open, answers) <==>
      && (forall j :: 0 <= j < k ==> answers[j].fd !in open)
      && (forall i, j :: 0 <= i < j < k ==> answers[i].fd != answers[j].fd)
    decreases k
  {
    if k == 0 {
    } else {
      AcceptableIff(open + {answers[0].fd}, answers[1..], k - 1);
      assert forall j :: 0 <= j < k - 1 ==> answers[1..][j] == answers[j + 1];
      assert forall j :: 1 <= j < k ==> answers[j] == answers[1..][j - 1];
    }
  }

  /** Every client waiting gets a live record, in order; no other record changes. */
  ghost predicate TakesRecords(s: Server, answers: seq<Accepted>, k: nat, t: Server)
    requires TakesUntil(answers, k)
  {
    && t.next == s.next + k && t.pending == s.pending && t.fault == s.fault
    && (forall id :: id in t.conns <==> id in s.conns || s.next <= id < s.next + k)
    && (forall id :: id in s.conns ==> t.conns[id] == s.conns[id])
    && (forall j :: 0 <= j < k ==> t.conns[s.next + j] == Conn(answers[j].fd, false, 0, 0, 0, 0))
  }

  /** The descriptors of the clients are open, and registered for those that the kernel takes. */
  ghost predicate TakesDescriptors(s: Server, answers: seq<Accepted>, k: nat, t: Server)
    requires TakesUntil(answers, k)
  {
    && (forall j :: 0 <= j < k ==> answers[j].fd in t.open)
    && (forall j :: 0 <= j < k && answers[j].added ==>
          answers[j].fd in t.registered && t.registered[answers[j].fd] == s.next + j)
    && (forall j :: 0 <= j < k && !answers[j].added ==> answers[j].fd !in t.registered)
  }

  /** No other descriptor is touched. */
  ghost predicate LeavesOthers(s: Server, answers: seq<Accepted>, k: nat, t: Server)
    requires TakesUntil(answers, k)
  {
    forall fd :: (forall j :: 0 <= j < k ==> answers[j].fd != fd) ==>
      && (fd in t.open <==> fd in s.open) && (fd in t.registered <==> fd in s.registered)
      && (fd in t.registered ==> t.registered[fd] == s.registered[fd])
  }

  /** The accept loop takes every client up to the first answer that is none, however many wait. */
  lemma {:induction false} AcceptAllTakes(s: Server, answers: seq<Accepted>, k: nat)
    requires Inv(s) && Acceptable(s.open, answers) && TakesUntil(answers, k)
    ensures var t := AcceptAll(s, answers);
      TakesRecords(s, answers, k, t) && TakesDescriptors(s, answers, k, t) && LeavesOthers(s, answers, k, t)
    decreases k
  {
    if k == 0 {
    } else {
      var fd, added := answers[0].fd, answers[0].added;
      var u, t := Connected(s, fd, added), AcceptAll(s, answers);
      ConnectedKeepsInv(s, fd, added);
      AcceptAllTakes(u, answers[1..], k - 1);
      AcceptableIff(s.open, answers, k);
      assert fd !in s.registered;
      assert forall id :: id in s.conns ==> id < s.next;
      hide Inv, AcceptAll, Acceptable;
      TakesRecordsOfRest(s, u, answers, k, t);
      TakesDescriptorsOfRest(s, u, answers, k, t);
    }
  }

  lemma TakesRecordsOfRest(s: Server, u: Server, answers: seq<Accepted>, k: nat, t: Server)
    requires 1 <= k && TakesUntil(answers, k) && u == Connected(s, answers[0].fd, answers[0].added)
    requires TakesRecords(u, answers[1..], k - 1, t) && forall id :: id in s.conns ==> id < s.next
    ensures TakesRecords(s, answers, k, t)
  {
    forall j | 0 <= j < k
      ensures t.conns[s.next + j] == Conn(answers[j].fd, false, 0, 0, 0, 0)
    {
      if j == 0 {
        assert s.next in u.conns;
      } else {
        assert t.conns[u.next + (j - 1)].fd == answers[1..][j - 1].fd;
      }
    }
  }

  lemma TakesDescriptorsOfRest(s: Server, u: Server, answers: seq<Accepted>, k: nat, t: Server)
    requires 1 <= k && TakesUntil(answers, k) && u == Connected(s, answers[0].fd, answers[0].added)
    requires TakesDescriptors(u, answers[1..], k - 1, t) && LeavesOthers(u, answers[1..], k - 1, t)
    requires answers[0].fd !in s.registered && forall i, j :: 0 <= i < j < k ==> answers[i].fd != answers[j].fd
    ensures TakesDescriptors(s, answers, k, t) && LeavesOthers(s, answers, k, t)
  {
    assert forall j :: 0 <= j < k - 1 ==> answers[1..][j] == answers[j + 1];
    assert forall j :: 1 <= j < k ==> answers[j] == answers[1..][j - 1];
  }

  // ---------------------------------------------------------------- a connection nobody watches

  /** A new connection is live, and events can reach it exactly when its registration was taken. */
  lemma ConnectedIsWatched(s: Server, fd: Fd, added: bool)
    requires Inv(s) && fd !in s.open
    ensures var t := Connected(s, fd, added);
      s.next !in s.conns && s.next in t.conns && t.conns[s.next].Live() && (Known(t, s.next) <==> added)
  {
    assert fd !in s.registered;
  }

  /** Nothing has been given up of this connection, and no event can reach it. */
  ghost predicate Unwatched(s: Server, id: Id) {
    id in s.conns && s.conns[id].Live() && !Known(s, id)
  }

  lemma {:induction false} AcceptAllLeavesUnwatched(s: Server, answers: seq<Accepted>, id: Id)
    requires Inv(s) && Acceptable(s.open, answers) && Unwatched(s, id)
    ensures Unwatched(AcceptAll(s, answers), id)
    decreases |answers|
  {
    if AcceptsAgain(answers[0]) {
      var t := Connected(s, answers[0].fd, answers[0].added);
      ConnectedKeepsInv(s, answers[0].fd, answers[0].added);
      assert Unwatched(t, id);
      AcceptAllLeavesUnwatched(t, answers[1..], id);
    }
  }

  lemma DispatchedLeavesUnwatched(s: Server, answers: seq<Answer>, taken: bool, id: Id)
    requires Inv(s) && !s.fault && Enabled(s, Dispatch(answers, taken)) && Unwatched(s, id)
    ensures Unwatched(Dispatched(s, answers, taken), id)
  {
    assert Known(s, s.pending[0]) && s.pending[0] != id;
    var t := s.(pending := s.pending[1..]);
    if s.conns[s.pending[0]].Live() {
      DroppedIs(t, s.pending[0], taken);
    }
  }

  /** A connection whose registration was refused is never resumed, closed or freed, whatever the run. */
  lemma {:induction false} UnwatchedIsNeverReleased(s: Server, steps: seq<Step>, id: Id)
    requires Inv(s) && Runs(s, steps) && Unwatched(s, id)
    ensures Unwatched(Run(s, steps), id)
    decreases |steps|
  {
    if steps == [] {
    } else {
      StepKeepsInv(s, steps[0]);
      if !s.fault {
        match steps[0]
        case Poll(_) =>
        case Accept(accepts) => AcceptAllLeavesUnwatched(s, accepts, id);
        case Dispatch(answers, taken) => DispatchedLeavesUnwatched(s, answers, taken, id);
      }
      hide RecordsOk, RegistrationsOk, Dispatched;
      UnwatchedIsNeverReleased(Next(s, steps[0]), steps[1..], id);
    }
  }

  /** Some run from here closes, frees and destroys all that this connection has. */
  ghost predicate CanBeReleased(s: Server, id: Id) {
    exists steps :: ReleasedBy(s, steps, id)
  }

  ghost predicate ReleasedBy(s: Server, steps: seq<Step>, id: Id) {
    Runs(s, steps) && id in Run(s, steps).conns && Run(s, steps).conns[id].Released()
  }

  /** The rest of the batch can be read without a fault. */
  ghost predicate PendingLive(s: Server) {
    forall i :: 0 <= i < |s.pending| ==> s.pending[i] in s.conns && s.conns[s.pending[i]].Live()
  }

  /** The batch is read to its end, each of its clients getting a reply and no more. */
  lemma {:induction false} BatchEnds(s: Server) returns (steps: seq<Step>)
    requires Inv(s) && !s.fault && PendingLive(s)
    ensures Runs(s, steps) && Run(s, steps) == s.(pending := [])
    decreases |s.pending|
  {
    if s.pending == [] {
      steps := [];
    } else {
      var served := Dispatch([WouldBlock(true)], true);
      var t := Next(s, served);
      assert t == s.(pending := s.pending[1..]);
      StepKeepsInv(s, served);
      var rest := BatchEnds(t);
      steps := [served] + rest;
      assert steps[0] == served && steps[1..] == rest;
    }
  }

  /** A hang-up of a registered client, reported alone. */
  lemma HangUpReleases(s: Server, id: Id) returns (steps: seq<Step>)
    requires Inv(s) && !s.fault && s.pending == [] && Known(s, id) && s.conns[id].Live()
    ensures ReleasedBy(s, steps, id)
  {
    var fd := s.conns[id].fd;
    var p, d := Poll([fd]), Dispatch([EndOfFile], true);
    steps := [p, d];
    assert steps[1..] == [d] && [d][1..] == [];
    assert Distinct([fd]) && Enabled(s, p);
    var t := Next(s, p);
    assert t.pending == [id] && Enabled(t, d);
    assert t.pending[1..] == [];
    assert Next(t, d) == Dropped(t.(pending := []), id, true);
    DroppedIs(t.(pending := []), id, true);
    assert Runs(Next(t, d), []);
    assert Runs(t, [d]) && Run(t, [d]) == Next(t, d);
    assert Runs(s, steps) && Run(s, steps) == Next(t, d);
  }

  lemma {:induction false} RunsCompose(s: Server, a: seq<Step>, b: seq<Step>)
    requires Runs(s, a) && Runs(Run(s, a), b)
    ensures Runs(s, a + b) && Run(s, a + b) == Run(Run(s, a), b)
    decreases |a|
  {
    if a == [] {
      assert a + b == b;
    } else {
      hide Enabled, Next;
      RunsCompose(Next(s, a[0]), a[1..], b);
      assert (a + b)[0] == a[0] && (a + b)[1..] == a[1..] + b;
    }
  }

  /** A live connection can still be released if and only if the kernel holds its registration. */
  lemma ReleasableIffRegistered(s: Server, id: Id)
    requires Inv(s) && !s.fault && PendingLive(s) && id in s.conns && s.conns[id].Live()
    ensures CanBeReleased(s, id) <==> Known(s, id)
  {
    if Known(s, id) {
      var a := BatchEnds(s);
      var t := Run(s, a);
      RunKeepsInv(s, a);
      var b := HangUpReleases(t, id);
      RunsCompose(s, a, b);
      assert ReleasedBy(s, a + b, id);
    } else if CanBeReleased(s, id) {
      var steps :| ReleasedBy(s, steps, id);
      UnwatchedIsNeverReleased(s, steps, id);
    }
  }

  /** So for a connection just accepted, it depends on whether `poll_add` succeeded, and on nothing else. */
  lemma AcceptedIsReleasableIff(s: Server, fd: Fd, added: bool)
    requires Inv(s) && !s.fault && PendingLive(s) && fd !in s.open
    ensures CanBeReleased(Connected(s, fd, added), s.next) <==> added
  {
    ConnectedKeepsInv(s, fd, added);
    ConnectedIsWatched(s, fd, added);
    ReleasableIffRegistered(Connected(s, fd, added), s.next);
  }

  /** The smallest run that leaves a connection behind: one client, whose registration is refused. */
  lemma RefusedRegistrationStrands()
    ensures var steps := [Accept([Client(5, false), WouldBlockNow])];
            Runs(STARTED, steps) && Unwatched(Run(STARTED, steps), 0) && !CanBeReleased(Run(STARTED, steps), 0)
  {
    var accepts := [Client(5, false), WouldBlockNow];
    var a := Accept(accepts);
    var steps := [a];
    assert accepts[1..] == [WouldBlockNow];
    assert Acceptable({5}, accepts[1..]) && {} + {5} == {5};
    var s := Next(STARTED, a);
    assert s == AcceptAll(Connected(STARTED, 5, false), accepts[1..]) == Connected(STARTED, 5, false);
    assert steps[1..] == [] && Runs(s, []);
    assert Runs(STARTED, steps) && Run(STARTED, steps) == s;
    AcceptedIsReleasableIff(STARTED, 5, false);
  }

  /**
   The next batch can lead to a freed record exactly when some unregistration has been refused: the kernel
   may then report a descriptor that nothing will ever unregister.
   */
  lemma FaultIffRefused(steps: seq<Step>)
    requires Runs(STARTED, steps) && !Run(STARTED, steps).fault && Run(STARTED, steps).pending == []
    ensures (exists fd :: NextEventFaults(Run(STARTED, steps), fd)) <==> exists step :: step in steps && Refused(step)
  {
    var s := Run(STARTED, steps);
    RunKeepsInv(STARTED, steps);
    DanglingIff(STARTED, steps);
    if SomeDangling(s) {
      var id :| id in s.conns && s.conns[id].Dangling();
      assert Known(s, id);
      EventFaultsIf(s, s.conns[id].fd);
    }
    if fd :| NextEventFaults(s, fd) {
      EventFaultsIf(s, fd);
    }
  }

  /** An event on this descriptor, taken up at once, leads to a freed record. */
  ghost predicate NextEventFaults(s: Server, fd: Fd) {
    var steps := [Poll([fd]), Dispatch([WouldBlock(true)], true)];
    Runs(s, steps) && Run(s, steps).fault
  }

  lemma EventFaultsIf(s: Server, fd: Fd)
    requires Inv(s) && !s.fault && s.pending == []
    ensures NextEventFaults(s, fd) <==> fd in s.registered && s.conns[s.registered[fd]].Dangling()
  {
    var poll, dispatch := Poll([fd]), Dispatch([WouldBlock(true)], true);
    var steps := [poll, dispatch];
    assert steps[1..] == [dispatch] && [dispatch][1..] == [];
    if fd in s.registered {
      assert Distinct([fd]) && Enabled(s, poll);
      var t := Next(s, poll);
      assert t.pending == [s.registered[fd]];
      assert Enabled(t, dispatch);
      assert Runs(Next(t, dispatch), []);
      assert Runs(t, [dispatch]) && Run(t, [dispatch]) == Next(t, dispatch);
      assert Runs(s, steps) && Run(s, steps) == Next(t, dispatch);
    } else {
      assert fd in [fd] && !Enabled(s, poll);
    }
  }

  /** The smallest run that goes wrong: one client, its hang-up, a refused unregistration, one more event. */
  lemma RefusedUnregistrationFaults()
    ensures var steps := [Accept([Client(5, true), WouldBlockNow]), Poll([5]), Dispatch([EndOfFile], false)];
            Runs(STARTED, steps) && NextEventFaults(Run(STARTED, steps), 5)
  {
    var accepts := [Client(5, true), WouldBlockNow];
    var a, p, d := Accept(accepts), Poll([5]), Dispatch([EndOfFile], false);
    var steps := [a, p, d];
    assert accepts[1..] == [WouldBlockNow];
    assert Acceptable({5}, accepts[1..]) && {} + {5} == {5};
    var s1 := Next(STARTED, a);
    assert s1 == AcceptAll(Connected(STARTED, 5, true), accepts[1..]) == Connected(STARTED, 5, true);
    assert Distinct([5]) && Enabled(s1, p);
    var s2 := Next(s1, p);
    assert s2.pending == [0];
    var s3 := Next(s2, d);
    assert s3.conns[0].Dangling();
    assert steps[1..] == [p, d] && [p, d][1..] == [d] && [d][1..] == [];
    assert Runs(s3, []);
    assert Runs(s2, [d]) && Run(s2, [d]) == s3;
    assert Runs(s1, [p, d]) && Run(s1, [p, d]) == s3;
    assert Run(STARTED, steps) == s3;
    RunKeepsInv(STARTED, steps);
    EventFaultsIf(s3, 5);
  }
}
