/** What the relay keeps at every loop head, over any run of permitted answers. */
module RelayProperties {
  import opened ByteType
  import opened RelaySpec

  /**
   Nothing is lost, duplicated or reordered in either direction, cursors that meet are both at the
   base, and the write side has been shut down exactly when standard input has ended and all of it
   has been sent.
   */
  ghost predicate Inv(r: Relay) {
    && Sound(r)
    && r.stdin == r.sent + r.to.Pending()
    && r.received == r.printed + r.fr.Pending()
    && r.shutdowns == if r.stdinEof && r.to.s == r.to.e then 1 else 0
  }

  /** `connect` has been called and nothing has moved yet. */
  ghost predicate Init(r: Relay) {
    && 0 < |r.to.mem| && 0 < |r.fr.mem| && r.to.s == r.to.e == 0 && r.fr.s == r.fr.e == 0
    && !r.stdinEof && r.status == Going && r.stdin == r.sent == r.received == r.printed == [] && r.shutdowns == 0
  }

  lemma FilledKeepsPending(b: Buffer, data: seq<Byte>)
    requires b.Valid() && 1 <= |data| <= b.Room()
    ensures b.Filled(data).Valid() && b.Filled(data).Pending() == b.Pending() + data
    ensures |b.Filled(data).mem| == |b.mem|
  {
  }

  lemma DrainedKeepsRest(b: Buffer, n: nat)
    requires b.Valid() && b.s != b.e && n <= b.e - b.s
    ensures b.Drained(n).Valid() && b.Pending() == b.mem[b.s..b.s + n] + b.Drained(n).Pending()
    ensures (b.Drained(n).s == b.Drained(n).e) == (n == b.e - b.s)
  {
  }

  lemma DrainedPending(b: Buffer, n: nat)
    requires b.Valid() && b.s != b.e && n <= b.e - b.s
    ensures b.Drained(n).Valid() && b.Drained(n).Pending() == b.Pending()[n..]
    ensures b.mem[b.s..b.s + n] == b.Pending()[..n]
  {
    assert b.mem[b.s..b.e][..n] == b.mem[b.s..b.s + n] && b.mem[b.s..b.e][n..] == b.mem[b.s + n..b.e];
  }

  lemma StdinBlockKeepsInv(r: Relay, env: Env)
    requires Inv(r) && Permitted(r, env)
    ensures Inv(StdinBlock(r, env))
  {
    if GotStdin(r, env) {
      FilledKeepsPending(r.to, env.stdinRead.data);
      assert r.stdin + env.stdinRead.data == r.sent + (r.to.Pending() + env.stdinRead.data);
    }
  }

  lemma SocketReadKeepsInv(r: Relay, env: Env)
    requires Inv(r) && ReadAllowed(r.fr.Room(), env.sockRead)
    ensures Inv(SocketRead(r, env))
  {
    if env.sockRead.Bytes? {
      FilledKeepsPending(r.fr, env.sockRead.data);
      assert r.received + env.sockRead.data == r.printed + (r.fr.Pending() + env.sockRead.data);
    }
  }

  lemma SocketWriteKeepsInv(r: Relay, env: Env)
    requires Inv(r) && WriteAllowed(r.to.e - r.to.s, env.sockWrite)
    ensures Inv(SocketWrite(r, env))
  {
    if r.to.s != r.to.e && env.sockWrite.Wrote? {
      var n := env.sockWrite.n;
      DrainedKeepsRest(r.to, n);
      var w := r.to.mem[r.to.s..r.to.s + n];
      assert r.sent + (w + r.to.Drained(n).Pending()) == r.sent + w + r.to.Drained(n).Pending();
    }
  }

  lemma SocketBlockKeepsInv(r: Relay, env: Env, got: bool)
    requires Inv(r) && ReadAllowed(r.fr.Room(), env.sockRead) && WriteAllowed(r.to.e - r.to.s, env.sockWrite)
    ensures Inv(SocketBlock(r, env, got))
  {
    SocketReadKeepsInv(r, env);
    SocketWriteKeepsInv(r, env);
  }

  lemma StdoutBlockKeepsInv(r: Relay, env: Env, got: bool)
    requires Inv(r) && WriteAllowed(r.fr.e - r.fr.s, env.stdoutWrite)
    ensures Inv(StdoutBlock(r, env, got))
  {
    if r.fr.s != r.fr.e && env.stdoutWrite.Wrote? {
      var n := env.stdoutWrite.n;
      DrainedKeepsRest(r.fr, n);
      var w := r.fr.mem[r.fr.s..r.fr.s + n];
      assert r.printed + (w + r.fr.Drained(n).Pending()) == r.printed + w + r.fr.Drained(n).Pending();
    }
  }

  lemma StdinBlockLeavesFr(r: Relay, env: Env)
    requires Sound(r) && Permitted(r, env)
    ensures StdinBlock(r, env).fr == r.fr
  {
  }

  lemma IterateKeepsInv(r: Relay, env: Env)
    requires Inv(r) && Permitted(r, env)
    ensures Inv(Iterate(r, env))
  {
    if env.poll.Ready? {
      var r1 := StdinBlock(r, env);
      StdinBlockKeepsInv(r, env);
      StdinBlockLeavesFr(r, env);
      SocketBlockKeepsInv(r1, env, GotStdin(r, env));
      var r2 := SocketBlock(r1, env, GotStdin(r, env));
      StdoutBlockKeepsInv(r2, env, GotSocket(r1, env));
    }
  }

  /** Conservation in both directions at every loop head of every run. */
  lemma {:induction false} RunConserves(r: Relay, envs: seq<Env>)
    requires Inv(r) && PermittedRun(r, envs)
    ensures Inv(Run(r, envs))
    decreases |envs|
  {
    if envs == [] || r.status != Going {
    } else {
      IterateKeepsInv(r, envs[0]);
      RunConserves(Iterate(r, envs[0]), envs[1..]);
    }
  }

  lemma AllMovedIffEmpty(r: Relay)
    requires Inv(r)
    ensures r.printed == r.received <==> r.fr.s == r.fr.e
    ensures r.sent == r.stdin <==> r.to.s == r.to.e
  {
    assert |r.received| == |r.printed| + |r.fr.Pending()|;
    assert |r.stdin| == |r.sent| + |r.to.Pending()|;
  }

  // ---------------------------------------------------------------- half-close

  lemma NoWriteAfterHalfClose(r: Relay, env: Env)
    requires Inv(r) && Permitted(r, env) && r.shutdowns == 1
    ensures var t := Iterate(r, env);
      t.shutdowns == 1 && t.sent == r.sent && t.stdin == r.stdin && t.stdinEof && t.to.s == t.to.e
  {
  }

  /**
   Half-close safety.  The write side is shut down at most once, only after standard input has ended
   and every byte of it has been written to the socket, and nothing is written or read from standard
   input afterwards.
   */
  lemma {:induction false} HalfCloseIsFinal(r: Relay, envs: seq<Env>)
    requires Inv(r) && PermittedRun(r, envs)
    ensures var t := Run(r, envs);
      && t.shutdowns <= 1
      && (t.shutdowns == 1 ==> t.stdinEof && t.sent == t.stdin)
      && (r.shutdowns == 1 ==> t.shutdowns == 1 && t.sent == r.sent && t.stdin == r.stdin)
    decreases |envs|
  {
    RunConserves(r, envs);
    if envs == [] || r.status != Going {
    } else {
      IterateKeepsInv(r, envs[0]);
      if r.shutdowns == 1 {
        NoWriteAfterHalfClose(r, envs[0]);
      }
      HalfCloseIsFinal(Iterate(r, envs[0]), envs[1..]);
    }
  }

  // ---------------------------------------------------------------- progress

  /** Every read asks for at least one byte, so a result of zero is the end of the stream. */
  lemma ReadsAskForBytes(r: Relay, env: Env)
    requires Sound(r) && Permitted(r, env) && env.poll.Ready?
    ensures env.poll.stdinIn ==> r.to.Room() >= 1 && !r.stdinEof && r.connected
    ensures env.poll.sockIn && r.connected ==> StdinBlock(r, env).fr.Room() >= 1
  {
  }

  /** Once connected, every poll asks for something: a full `fr` buffer has bytes to print. */
  lemma PollIsNeverEmpty(r: Relay)
    requires Sound(r) && r.connected
    ensures Requests(r).sockIn || Requests(r).stdoutOut
    ensures r.to.s != r.to.e ==> Requests(r).sockOut
    ensures r.to.s == r.to.e && !r.stdinEof ==> Requests(r).stdinIn
  {
  }

  // ---------------------------------------------------------------- what one turn does, stream by stream

  /** What standard input delivers in this turn. */
  ghost function Typed(env: Env): seq<Byte> {
    if env.poll.Ready? && env.poll.stdinIn && env.stdinRead.Bytes? then env.stdinRead.data else []
  }

  ghost predicate TypedEof(env: Env) {
    env.poll.Ready? && env.poll.stdinIn && env.stdinRead.Eof?
  }

  ghost predicate TypedFails(env: Env) {
    env.poll.Ready? && env.poll.stdinIn && env.stdinRead.ReadFailed?
  }

  /** The turn comes to the socket with something to do there: an event, or bytes just typed. */
  ghost predicate AtSocket(env: Env) {
    env.poll.Ready? && !TypedFails(env) && (Typed(env) != [] || env.poll.sockIn || env.poll.sockOut)
  }

  ghost predicate ReadsSocket(r: Relay, env: Env) {
    AtSocket(env) && r.connected && env.poll.sockIn
  }

  /** It writes to the socket only when there is nothing to read there, and only what there is. */
  ghost predicate WritesSocket(r: Relay, env: Env)
    requires r.to.s <= r.to.e <= |r.to.mem|
  {
    AtSocket(env) && r.connected && !env.poll.sockIn && r.to.Pending() + Typed(env) != []
  }

  /** What the socket delivers in this turn. */
  ghost function Delivered(r: Relay, env: Env): seq<Byte> {
    if ReadsSocket(r, env) && env.sockRead.Bytes? then env.sockRead.data else []
  }

  ghost predicate SocketEnds(r: Relay, env: Env)
    requires r.to.s <= r.to.e <= |r.to.mem|
  {
    || (AtSocket(env) && !r.connected && !env.connectOk)
    || (ReadsSocket(r, env) && (env.sockRead.Eof? || env.sockRead.ReadFailed?))
    || (WritesSocket(r, env) && env.sockWrite.WriteFailed?)
  }

  /** It comes to print, and there is something to print. */
  ghost predicate Prints(r: Relay, env: Env)
    requires r.to.s <= r.to.e <= |r.to.mem| && r.fr.s <= r.fr.e <= |r.fr.mem|
  {
    && env.poll.Ready? && !TypedFails(env) && !SocketEnds(r, env)
    && (Delivered(r, env) != [] || env.poll.stdoutOut) && r.fr.Pending() + Delivered(r, env) != []
  }

  /** The first block, stream by stream. */
  lemma StdinEffect(r: Relay, env: Env)
    requires Inv(r) && Permitted(r, env) && r.status == Going
    ensures var t := StdinBlock(r, env);
      && Inv(t) && t.to.Pending() == r.to.Pending() + Typed(env) && t.stdin == r.stdin + Typed(env)
      && (t.stdinEof <==> r.stdinEof || TypedEof(env))
      && (t.status == if TypedFails(env) then Died else Going)
      && t.fr == r.fr && t.connected == r.connected && t.sent == r.sent && t.received == r.received
      && t.printed == r.printed
      && (GotStdin(r, env) <==> Typed(env) != [])
  {
    StdinBlockKeepsInv(r, env);
    if GotStdin(r, env) {
      FilledKeepsPending(r.to, env.stdinRead.data);
    }
  }

  /** Whether the second block does something, given whether standard input has just delivered bytes. */
  ghost predicate Comes(env: Env, got: bool) {
    env.poll.Ready? && (got || env.poll.sockIn || env.poll.sockOut)
  }

  ghost predicate Reads(r: Relay, env: Env, got: bool) {
    Comes(env, got) && r.connected && env.poll.sockIn
  }

  ghost predicate Writes(r: Relay, env: Env, got: bool)
    requires r.to.s <= r.to.e <= |r.to.mem|
  {
    Comes(env, got) && r.connected && !env.poll.sockIn && r.to.Pending() != []
  }

  ghost function Read(r: Relay, env: Env, got: bool): seq<Byte> {
    if Reads(r, env, got) && env.sockRead.Bytes? then env.sockRead.data else []
  }

  ghost predicate Ends(r: Relay, env: Env, got: bool)
    requires r.to.s <= r.to.e <= |r.to.mem|
  {
    || (Comes(env, got) && !r.connected && !env.connectOk)
    || (Reads(r, env, got) && (env.sockRead.Eof? || env.sockRead.ReadFailed?))
    || (Writes(r, env, got) && env.sockWrite.WriteFailed?)
  }

  lemma SocketReadEffect(r: Relay, env: Env)
    requires Inv(r) && r.status == Going && ReadAllowed(r.fr.Room(), env.sockRead)
    ensures var t, data := SocketRead(r, env), if env.sockRead.Bytes? then env.sockRead.data else [];
      && Inv(t) && t == r.(fr := t.fr, received := t.received, status := t.status)
      && t.received == r.received + data && t.fr.Pending() == r.fr.Pending() + data
      && (t.status == if env.sockRead.Eof? then Stopped else if env.sockRead.ReadFailed? then Died else Going)
  {
    SocketReadKeepsInv(r, env);
    if env.sockRead.Bytes? {
      FilledKeepsPending(r.fr, env.sockRead.data);
    }
  }

  lemma SocketWriteEffect(r: Relay, env: Env)
    requires Inv(r) && r.status == Going && WriteAllowed(r.to.e - r.to.s, env.sockWrite)
    ensures var t, writes := SocketWrite(r, env), r.to.Pending() != [];
      && Inv(t) && t == r.(to := t.to, sent := t.sent, shutdowns := t.shutdowns, status := t.status)
      && (t.status == if writes && env.sockWrite.WriteFailed? then Died else Going)
      && (if writes && env.sockWrite.Wrote? then
            && env.sockWrite.n <= |r.to.Pending()| && t.sent == r.sent + r.to.Pending()[..env.sockWrite.n]
            && t.to.Pending() == r.to.Pending()[env.sockWrite.n..]
          else
            t.sent == r.sent && t.to == r.to)
  {
    SocketWriteKeepsInv(r, env);
    if r.to.s != r.to.e && env.sockWrite.Wrote? {
      DrainedPending(r.to, env.sockWrite.n);
    }
  }

  /** The second block, stream by stream. */
  lemma SocketEffect(r: Relay, env: Env, got: bool)
    requires Inv(r) && r.status == Going && env.poll.Ready?
    requires ReadAllowed(r.fr.Room(), env.sockRead) && WriteAllowed(r.to.e - r.to.s, env.sockWrite)
    ensures var t := SocketBlock(r, env, got);
      && Inv(t) && t.stdin == r.stdin && t.stdinEof == r.stdinEof && t.printed == r.printed
      && t.received == r.received + Read(r, env, got) && t.fr.Pending() == r.fr.Pending() + Read(r, env, got)
      && (t.connected <==> r.connected || (Comes(env, got) && env.connectOk))
      && (t.status == if !Ends(r, env, got) then Going
                      else if Reads(r, env, got) && env.sockRead.Eof? then Stopped else Died)
      && (if Writes(r, env, got) && env.sockWrite.Wrote? then
            && env.sockWrite.n <= |r.to.Pending()| && t.sent == r.sent + r.to.Pending()[..env.sockWrite.n]
            && t.to.Pending() == r.to.Pending()[env.sockWrite.n..]
          else
            t.sent == r.sent && t.to == r.to)
  {
    hide SocketRead, SocketWrite;
    SocketReadEffect(r, env);
    SocketWriteEffect(r, env);
  }

  /** The third block, stream by stream. */
  lemma StdoutEffect(r: Relay, env: Env, got: bool)
    requires Inv(r) && r.status == Going && WriteAllowed(r.fr.e - r.fr.s, env.stdoutWrite)
    ensures var t := StdoutBlock(r, env, got);
      var prints := (got || (env.poll.Ready? && env.poll.stdoutOut)) && r.fr.Pending() != [];
      && Inv(t) && t == r.(fr := t.fr, printed := t.printed, status := t.status)
      && (t.status == if prints && env.stdoutWrite.WriteFailed? then Died else Going)
      && (if prints && env.stdoutWrite.Wrote? then
            && env.stdoutWrite.n <= |r.fr.Pending()| && t.printed == r.printed + r.fr.Pending()[..env.stdoutWrite.n]
            && t.fr.Pending() == r.fr.Pending()[env.stdoutWrite.n..]
          else
            t.printed == r.printed && t.fr == r.fr)
  {
    StdoutBlockKeepsInv(r, env, got);
    if r.fr.s != r.fr.e && env.stdoutWrite.Wrote? {
      DrainedPending(r.fr, env.stdoutWrite.n);
    }
  }

  /** Reading: what was typed and what the socket delivered is read, and a stream's end is noticed. */
  ghost predicate ReadsAsTold(r: Relay, env: Env, t: Relay) {
    && t.stdin == r.stdin + Typed(env)
    && t.received == r.received + Delivered(r, env)
    && (t.stdinEof <==> r.stdinEof || TypedEof(env))
    && (t.connected <==> r.connected || (AtSocket(env) && env.connectOk))
  }

  /** Sending: the first `n` bytes of what was waiting and what was typed are sent when the kernel takes `n`. */
  ghost predicate SendsAsTold(r: Relay, env: Env, t: Relay)
    requires Sound(r) && Sound(t)
  {
    var waiting := r.to.Pending() + Typed(env);
    if WritesSocket(r, env) && env.sockWrite.Wrote? then
      && env.sockWrite.n <= |waiting| && t.sent == r.sent + waiting[..env.sockWrite.n]
      && t.to.Pending() == waiting[env.sockWrite.n..]
    else
      t.sent == r.sent && t.to.Pending() == waiting
  }

  /** Printing, in the same way. */
  ghost predicate PrintsAsTold(r: Relay, env: Env, t: Relay)
    requires Sound(r) && Sound(t)
  {
    var waiting := r.fr.Pending() + Delivered(r, env);
    if Prints(r, env) && env.stdoutWrite.Wrote? then
      && env.stdoutWrite.n <= |waiting| && t.printed == r.printed + waiting[..env.stdoutWrite.n]
      && t.fr.Pending() == waiting[env.stdoutWrite.n..]
    else
      t.printed == r.printed && t.fr.Pending() == waiting
  }

  /** The loop ends when polling fails or the peer has closed; the program dies when a call fails; else it goes on. */
  ghost predicate EndsAsTold(r: Relay, env: Env, t: Relay)
    requires Sound(r)
  {
    && (t.status == Stopped <==> env.poll.PollFailed? || (ReadsSocket(r, env) && env.sockRead.Eof?))
    && (t.status == Died <==>
          || TypedFails(env)
          || (SocketEnds(r, env) && !(ReadsSocket(r, env) && env.sockRead.Eof?))
          || (Prints(r, env) && env.stdoutWrite.WriteFailed?))
  }

  /** What one turn does to each stream, said of the kernel's answers and the bytes that were waiting. */
  lemma TurnDoes(r: Relay, env: Env)
    requires Inv(r) && Permitted(r, env) && r.status == Going
    ensures var t := Iterate(r, env);
      Inv(t) && ReadsAsTold(r, env, t) && SendsAsTold(r, env, t) && PrintsAsTold(r, env, t) && EndsAsTold(r, env, t)
  {
    if env.poll.Ready? {
      var r1 := StdinBlock(r, env);
      StdinEffect(r, env);
      var got := GotStdin(r, env);
      if r1.status == Going {
        TurnGoesOn(r, env, r1, got);
      }
    }
  }

  /** What the second block goes by is what was said of the turn as a whole. */
  lemma SameConditions(r: Relay, env: Env, r1: Relay, got: bool)
    requires Sound(r) && Sound(r1) && env.poll.Ready? && !TypedFails(env) && (got <==> Typed(env) != [])
    requires r1.to.Pending() == r.to.Pending() + Typed(env) && r1.fr == r.fr && r1.connected == r.connected
    ensures Comes(env, got) <==> AtSocket(env)
    ensures Reads(r1, env, got) <==> ReadsSocket(r, env)
    ensures Writes(r1, env, got) <==> WritesSocket(r, env)
    ensures Read(r1, env, got) == Delivered(r, env)
    ensures Ends(r1, env, got) <==> SocketEnds(r, env)
  {
  }

  /** Up to the third block: all but the printing is done. */
  ghost predicate ServedAsTold(r: Relay, env: Env, r2: Relay)
    requires Sound(r)
  {
    && Inv(r2) && ReadsAsTold(r, env, r2) && SendsAsTold(r, env, r2)
    && r2.printed == r.printed && r2.fr.Pending() == r.fr.Pending() + Delivered(r, env)
    && (r2.status == if !SocketEnds(r, env) then Going
                     else if ReadsSocket(r, env) && env.sockRead.Eof? then Stopped else Died)
  }

  lemma TurnServes(r: Relay, env: Env, r1: Relay, got: bool)
    requires Inv(r) && Permitted(r, env) && r.status == Going && env.poll.Ready? && !TypedFails(env)
    requires r1 == StdinBlock(r, env) && got == GotStdin(r, env)
    ensures ServedAsTold(r, env, SocketBlock(r1, env, got)) && (GotSocket(r1, env) <==> Delivered(r, env) != [])
  {
    StdinEffect(r, env);
    SameConditions(r, env, r1, got);
    SocketEffect(r1, env, got);
    assert GotSocket(r1, env) <==> Delivered(r, env) != [];
    hide StdinBlock, SocketBlock, GotStdin, GotSocket, Inv;
    hide Comes, Reads, Writes, Read, Ends, TypedFails, TypedEof;
    hide AtSocket, ReadsSocket, WritesSocket, SocketEnds, Delivered;
  }

  lemma TurnGoesOn(r: Relay, env: Env, r1: Relay, got: bool)
    requires Inv(r) && Permitted(r, env) && r.status == Going && env.poll.Ready? && !TypedFails(env)
    requires r1 == StdinBlock(r, env) && got == GotStdin(r, env) && r1.status == Going
    ensures var t := Iterate(r, env);
      Inv(t) && ReadsAsTold(r, env, t) && SendsAsTold(r, env, t) && PrintsAsTold(r, env, t) && EndsAsTold(r, env, t)
  {
    TurnServes(r, env, r1, got);
    var r2 := SocketBlock(r1, env, got);
    hide StdinBlock, SocketBlock, GotStdin, GotSocket;
    hide AtSocket, ReadsSocket, WritesSocket, SocketEnds, Delivered, TypedFails, TypedEof;
    if r2.status == Going {
      StdoutEffect(r2, env, GotSocket(r1, env));
      hide StdoutBlock;
      assert Iterate(r, env) == StdoutBlock(r2, env, GotSocket(r1, env));
    } else {
      assert Iterate(r, env) == r2;
    }
  }

  /** By the end of a turn: it was shut down before, or standard input has ended and nothing is left to send. */
  lemma TurnShutsDown(r: Relay, env: Env)
    requires Inv(r) && Permitted(r, env) && r.status == Going
    ensures var t := Iterate(r, env);
      && Sound(t)
      && t.shutdowns == if r.shutdowns == 1 || ((r.stdinEof || TypedEof(env)) && t.to.Pending() == []) then 1 else 0
  {
    TurnDoes(r, env);
    if r.shutdowns == 1 {
      NoWriteAfterHalfClose(r, env);
    }
  }

  /**
   The kernel may answer anything that fits: events that the loop has a use for, reads of at least one byte and
   at most the room left, writes of at most what is waiting by then.
   */
  lemma WhatFitsIsPermitted(r: Relay, env: Env)
    requires Inv(r) && r.status == Going
    requires env.poll.Ready? ==>
      && (env.poll.stdinIn ==> r.connected && !r.stdinEof && r.to.e < |r.to.mem|)
      && (env.poll.sockIn ==> r.connected ==> r.fr.e < |r.fr.mem|)
      && (env.poll.sockOut ==> r.connected ==> r.to.Pending() != [])
      && (env.poll.stdoutOut ==> r.connected && r.fr.Pending() != [])
    requires env.stdinRead.Bytes? ==> 1 <= |env.stdinRead.data| <= |r.to.mem| - r.to.e
    requires env.sockRead.Bytes? ==> 1 <= |env.sockRead.data| <= |r.fr.mem| - r.fr.e
    requires env.sockWrite.Wrote? ==> env.sockWrite.n <= |r.to.Pending() + Typed(env)|
    requires env.stdoutWrite.Wrote? ==> env.stdoutWrite.n <= |r.fr.Pending() + Delivered(r, env)|
    ensures Permitted(r, env)
  {
  }

  // ---------------------------------------------------------------- everything can get through

  /** From any state the relay can connect, send and print all that it has, in turns the kernel permits. */
  lemma CanDrain(r: Relay) returns (envs: seq<Env>)
    requires Inv(r) && r.status == Going
    ensures PermittedRun(r, envs)
    ensures var t := Run(r, envs);
      && Inv(t) && t.connected && t.status == Going && t.stdin == r.stdin && t.received == r.received
      && t.sent == r.stdin && t.printed == r.received && t.to.Pending() == [] && t.fr.Pending() == []
      && (r.stdinEof ==> t.shutdowns == 1)
  {
    if r.connected {
      envs := CanDrainConnected(r);
    } else {
      var first := CanConnect(r);
      var r1 := Iterate(r, first);
      var rest := CanDrainConnected(r1);
      envs := [first] + rest;
      hide Iterate, Permitted;
      assert envs[1..] == rest;
    }
  }

  /** The poll before the connection stands asks for its outcome, and a good one connects. */
  lemma CanConnect(r: Relay) returns (env: Env)
    requires Inv(r) && !r.connected && r.status == Going
    ensures Permitted(r, env)
    ensures var t := Iterate(r, env);
      && Inv(t) && t.connected && t.status == Going && t.stdin == r.stdin && t.stdinEof == r.stdinEof
      && t.received == r.received
  {
    var done := Ready(false, false, true, false);
    env := Env(done, ReadWouldBlock, true, ReadWouldBlock, WriteWouldBlock, WriteWouldBlock);
    TurnDoes(r, env);
    hide Iterate;
  }

  lemma CanDrainConnected(r: Relay) returns (envs: seq<Env>)
    requires Inv(r) && r.connected && r.status == Going
    ensures PermittedRun(r, envs)
    ensures var t := Run(r, envs);
      && Inv(t) && t.connected && t.status == Going && t.stdin == r.stdin && t.received == r.received
      && t.sent == r.stdin && t.printed == r.received && t.to.Pending() == [] && t.fr.Pending() == []
      && (r.stdinEof ==> t.shutdowns == 1)
  {
    var first := CanSend(r);
    var r1 := Iterate(r, first);
    var second := CanPrint(r1);
    envs := [first, second];
    hide Iterate, Permitted;
    assert envs[1..] == [second] && [second][1..] == [];
    assert PermittedRun(r1, [second]) && Run(r1, [second]) == Run(Iterate(r1, second), []);
    AllMovedIffEmpty(Iterate(r1, second));
  }

  /** One turn sends all that waits to be sent. */
  lemma CanSend(r: Relay) returns (env: Env)
    requires Inv(r) && r.connected && r.status == Going
    ensures Permitted(r, env)
    ensures var t := Iterate(r, env);
      && Inv(t) && t.connected && t.status == Going && t.stdin == r.stdin && t.stdinEof == r.stdinEof
      && t.received == r.received && t.to.Pending() == []
  {
    env := Env(Ready(false, false, r.to.s != r.to.e, false), ReadWouldBlock, true, ReadWouldBlock,
               Wrote(r.to.e - r.to.s), WriteWouldBlock);
    TurnDoes(r, env);
    hide Iterate;
  }

  /** And one prints all that waits to be printed. */
  lemma CanPrint(r: Relay) returns (env: Env)
    requires Inv(r) && r.connected && r.status == Going
    ensures Permitted(r, env)
    ensures var t := Iterate(r, env);
      && Inv(t) && t.connected && t.status == Going && t.stdin == r.stdin && t.stdinEof == r.stdinEof
      && t.received == r.received && t.to.Pending() == r.to.Pending() && t.fr.Pending() == []
  {
    env := Env(Ready(false, false, false, r.fr.s != r.fr.e), ReadWouldBlock, true, ReadWouldBlock,
               WriteWouldBlock, Wrote(r.fr.e - r.fr.s));
    TurnDoes(r, env);
    hide Iterate;
  }

  // ---------------------------------------------------------------- what a stop may lose

  /**
   A turn that ends the loop leaves everything received printed if and only if the cursors of `fr` meet at
   its loop head, before the poll: the turn itself prints nothing.
   */
  lemma StopPrintsAllIff(r: Relay, env: Env)
    requires Inv(r) && Permitted(r, env) && r.status == Going && Iterate(r, env).status == Stopped
    ensures Iterate(r, env).printed == Iterate(r, env).received <==> r.fr.s == r.fr.e
  {
    IterateKeepsInv(r, env);
    AllMovedIffEmpty(Iterate(r, env));
    if env.poll.Ready? {
      StdinBlockLeavesFr(r, env);
    }
  }

  /** Every run that ends the loop has that last loop head, and this is when it loses nothing. */
  lemma {:induction false} StoppedRunPrintsAllIff(r: Relay, envs: seq<Env>) returns (head: Relay, k: nat)
    requires Inv(r) && PermittedRun(r, envs) && r.status == Going && Run(r, envs).status == Stopped
    ensures k < |envs| && PermittedRun(r, envs[..k]) && head == Run(r, envs[..k])
    ensures Inv(head) && head.status == Going && Permitted(head, envs[k]) && Iterate(head, envs[k]) == Run(r, envs)
    ensures Run(r, envs).printed == Run(r, envs).received <==> head.fr.s == head.fr.e
    decreases |envs|
  {
    if envs == [] {
      assert false;
    }
    var t := Iterate(r, envs[0]);
    IterateKeepsInv(r, envs[0]);
    if t.status == Going {
      head, k := StoppedRunPrintsAllIff(t, envs[1..]);
      k := k + 1;
      assert envs[..k][0] == envs[0] && envs[..k][1..] == envs[1..][..k - 1];
    } else {
      head, k := r, 0;
      assert envs[..0] == [];
      StopPrintsAllIff(r, envs[0]);
    }
  }

  /** A turn in which one byte arrives that cannot be printed at once. */
  lemma ByteArrives(r: Relay, b: Byte) returns (env: Env)
    requires Sound(r) && r.connected && r.status == Going && r.fr.e < |r.fr.mem|
    ensures Permitted(r, env)
    ensures Iterate(r, env) == r.(fr := r.fr.Filled([b]), received := r.received + [b])
  {
    env := Env(Ready(false, true, false, false), ReadWouldBlock, true, Bytes([b]), WriteWouldBlock, WriteWouldBlock);
  }

  /** A turn in which the peer closes. */
  lemma PeerCloses(r: Relay) returns (env: Env)
    requires Sound(r) && r.connected && r.status == Going && r.fr.e < |r.fr.mem|
    ensures Permitted(r, env) && Iterate(r, env) == r.(status := Stopped)
  {
    env := Env(Ready(false, true, false, false), ReadWouldBlock, true, Eof, WriteWouldBlock, WriteWouldBlock);
  }

  /** And it need not be: the peer's last byte cannot be printed at once, the peer closes, and the byte is lost. */
  lemma StopMayLoseBytes() returns (r: Relay, envs: seq<Env>)
    ensures Init(r) && PermittedRun(r, envs)
    ensures var t := Run(r, envs); t.status == Stopped && t.received == [7] && t.printed == []
  {
    hide Iterate, Permitted;
    r := Relay(Buffer([0], 0, 0), Buffer([0, 0], 0, 0), true, false, Going, [], [], [], [], 0);
    var first := ByteArrives(r, 7);
    var r1 := Iterate(r, first);
    var second := PeerCloses(r1);
    envs := [first, second];
    assert envs[1..] == [second] && [second][1..] == [];
    assert PermittedRun(r1, [second]) && Run(r1, [second]) == r1.(status := Stopped);
  }
}
