/**
 The non-blocking relay as a state machine on values: one event loop moves bytes from standard input to
 a socket and from the socket to standard output through two buffers.  The kernel's answers to one
 iteration's calls are its `Env`; what they may be is `Permitted`.
 */
module RelaySpec {
  import opened ByteType

  /** A buffer and its two cursors: the bytes from `s` to `e` are still to be written. */
  datatype Buffer = Buffer(mem: seq<Byte>, s: nat, e: nat) {
    ghost predicate Valid() {
      && 0 < |mem| && s <= e <= |mem|
      && (s == e ==> s == 0)
    }

    function Pending(): seq<Byte>
      requires s <= e <= |mem|
    {
      mem[s..e]
    }

    function Room(): nat
      requires e <= |mem|
    {
      |mem| - e
    }

    /** After a read of `data` at the end cursor. */
    function Filled(data: seq<Byte>): Buffer
      requires e + |data| <= |mem|
    {
      Buffer(mem[..e] + data + mem[e + |data|..], s, e + |data|)
    }

    /** After a write of `n` bytes: both cursors go back to the start when nothing is left. */
    function Drained(n: nat): Buffer
      requires s + n <= e
    {
      if s + n == e then Buffer(mem, 0, 0) else Buffer(mem, s + n, e)
    }
  }

  datatype Status = Going | Stopped | Died

  /**
   The loop's variables, and the history of each stream: `stdin` and `received` are the bytes read,
   `sent` and `printed` the bytes written, `shutdowns` the number of times the write side was shut down.
   */
  datatype Relay = Relay(to: Buffer, fr: Buffer, connected: bool, stdinEof: bool, status: Status,
                         stdin: seq<Byte>, sent: seq<Byte>, received: seq<Byte>, printed: seq<Byte>, shutdowns: nat)

  datatype ReadResult = Bytes(data: seq<Byte>) | Eof | ReadWouldBlock | ReadFailed
  datatype WriteResult = Wrote(n: nat) | WriteWouldBlock | WriteFailed
  datatype PollResult =
    | Ready(stdinIn: bool, sockIn: bool, sockOut: bool, stdoutOut: bool)
    | Timeout | Interrupted | PollFailed

  /** The kernel's answers in one iteration, whether or not the loop comes to ask. */
  datatype Env = Env(poll: PollResult, stdinRead: ReadResult, connectOk: bool, sockRead: ReadResult,
                     sockWrite: WriteResult, stdoutWrite: WriteResult)

  // ---------------------------------------------------------------- what the loop asks for

  /** The events it polls for. */
  function Requests(r: Relay): PollResult
    requires r.to.e <= |r.to.mem| && r.fr.e <= |r.fr.mem|
  {
    if !r.connected then
      Ready(false, true, true, false)
    else
      Ready(!r.stdinEof && r.to.e < |r.to.mem|, r.fr.e < |r.fr.mem|, r.to.s != r.to.e, r.fr.s != r.fr.e)
  }

  /** A read of at most `size` bytes: nothing to report but the end of the stream is what a size of zero gives too. */
  ghost predicate ReadAllowed(size: nat, result: ReadResult) {
    result.Bytes? ==> 1 <= |result.data| <= size
  }

  ghost predicate WriteAllowed(size: nat, result: WriteResult) {
    result.Wrote? ==> result.n <= size
  }

  // ---------------------------------------------------------------- one iteration

  function HalfClose(r: Relay): Relay {
    r.(shutdowns := r.shutdowns + 1)
  }

  function CanReadStdin(r: Relay, env: Env): bool {
    env.poll.Ready? && env.poll.stdinIn
  }

  /** The first block: standard input to the `to` buffer. */
  function StdinBlock(r: Relay, env: Env): Relay
    requires r.to.s <= r.to.e <= |r.to.mem|
    requires env.stdinRead.Bytes? ==> CanReadStdin(r, env) ==> |env.stdinRead.data| <= r.to.Room()
  {
    if !CanReadStdin(r, env) then r
    else match env.stdinRead
      case Bytes(data) => r.(to := r.to.Filled(data), stdin := r.stdin + data)
      case Eof => (if r.to.s == r.to.e then HalfClose(r.(stdinEof := true)) else r.(stdinEof := true))
      case ReadWouldBlock => r
      case ReadFailed => r.(status := Died)
  }

  function GotStdin(r: Relay, env: Env): bool {
    CanReadStdin(r, env) && env.stdinRead.Bytes?
  }

  /** The socket side, when bytes can be read from it. */
  function SocketRead(r: Relay, env: Env): Relay
    requires r.fr.e <= |r.fr.mem|
    requires env.sockRead.Bytes? ==> |env.sockRead.data| <= r.fr.Room()
  {
    match env.sockRead
    case Bytes(data) => r.(fr := r.fr.Filled(data), received := r.received + data)
    case Eof => r.(status := Stopped)
    case ReadWouldBlock => r
    case ReadFailed => r.(status := Died)
  }

  /** The socket side, when bytes can be written to it. */
  function SocketWrite(r: Relay, env: Env): Relay
    requires r.to.s <= r.to.e <= |r.to.mem|
    requires env.sockWrite.Wrote? ==> env.sockWrite.n <= r.to.e - r.to.s
  {
    if r.to.s == r.to.e then r
    else match env.sockWrite
      case Wrote(n) =>
        var w := r.(to := r.to.Drained(n), sent := r.sent + r.to.mem[r.to.s..r.to.s + n]);
        if r.to.s + n == r.to.e && r.stdinEof then HalfClose(w) else w
      case WriteWouldBlock => r
      case WriteFailed => r.(status := Died)
  }

  /** The second block; `got` says that standard input has just delivered bytes. */
  function SocketBlock(r: Relay, env: Env, got: bool): Relay
    requires r.to.s <= r.to.e <= |r.to.mem| && r.fr.e <= |r.fr.mem|
    requires env.sockRead.Bytes? ==> |env.sockRead.data| <= r.fr.Room()
    requires env.sockWrite.Wrote? ==> env.sockWrite.n <= r.to.e - r.to.s
  {
    var readable, writable := env.poll.Ready? && env.poll.sockIn, env.poll.Ready? && env.poll.sockOut;
    if !(got || readable || writable) then r
    else if !r.connected then (if env.connectOk then r.(connected := true) else r.(status := Died))
    else if readable then SocketRead(r, env)
    else SocketWrite(r, env)
  }

  function GotSocket(r: Relay, env: Env): bool {
    env.poll.Ready? && env.poll.sockIn && r.connected && env.sockRead.Bytes?
  }

  /** The third block: the `fr` buffer to standard output; `got` says that the socket has just delivered bytes. */
  function StdoutBlock(r: Relay, env: Env, got: bool): Relay
    requires r.fr.s <= r.fr.e <= |r.fr.mem|
    requires env.stdoutWrite.Wrote? ==> env.stdoutWrite.n <= r.fr.e - r.fr.s
  {
    if !(got || (env.poll.Ready? && env.poll.stdoutOut)) || r.fr.s == r.fr.e then r
    else match env.stdoutWrite
      case Wrote(n) => r.(fr := r.fr.Drained(n), printed := r.printed + r.fr.mem[r.fr.s..r.fr.s + n])
      case WriteWouldBlock => r
      case WriteFailed => r.(status := Died)
  }

  /** The state of the loop's variables at all, independent of history. */
  ghost predicate Sound(r: Relay) {
    r.to.Valid() && r.fr.Valid()
  }

  /**
   What the kernel promises for the iteration that starts in `r`: it reports only events that were
   asked for, a read delivers between one byte and the size it was given, a write takes at most its size.
   */
  ghost predicate Permitted(r: Relay, env: Env)
    requires Sound(r)
  {
    && (env.poll.Ready? ==>
          var q := Requests(r);
          && (env.poll.stdinIn ==> q.stdinIn) && (env.poll.sockIn ==> q.sockIn)
          && (env.poll.sockOut ==> q.sockOut) && (env.poll.stdoutOut ==> q.stdoutOut))
    && ReadAllowed(r.to.Room(), env.stdinRead)
    && ReadAllowed(r.fr.Room(), env.sockRead)
    && (var r1 := StdinBlock(r, env);
        && WriteAllowed(r1.to.e - r1.to.s, env.sockWrite)
        && var r2 := SocketBlock(r1, env, GotStdin(r, env));
        WriteAllowed(r2.fr.e - r2.fr.s, env.stdoutWrite))
  }

  /** One turn of the loop; a block that ends the program or the loop skips the rest. */
  ghost function Iterate(r: Relay, env: Env): Relay
    requires Sound(r) && Permitted(r, env)
  {
    match env.poll
    case PollFailed => r.(status := Stopped)
    case Interrupted => r
    case Timeout => r
    case Ready(_, _, _, _) =>
      var r1 := StdinBlock(r, env);
      if r1.status != Going then r1
      else
        var r2 := SocketBlock(r1, env, GotStdin(r, env));
        if r2.status != Going then r2
        else StdoutBlock(r2, env, GotSocket(r1, env))
  }

  /** The loop over the answers of as many iterations as it makes; it ends early when the status changes. */
  ghost function Run(r: Relay, envs: seq<Env>): Relay
    requires Sound(r) && PermittedRun(r, envs)
    decreases |envs|
  {
    if envs == [] || r.status != Going then r else Run(Iterate(r, envs[0]), envs[1..])
  }

  ghost predicate PermittedRun(r: Relay, envs: seq<Env>)
    requires Sound(r)
    decreases |envs|
  {
    envs == [] || r.status != Going ||
    (Permitted(r, envs[0]) && Sound(Iterate(r, envs[0])) && PermittedRun(Iterate(r, envs[0]), envs[1..]))
  }
}
