/**
 The relay as the program runs it: two byte arrays, four cursors moved in place, one loop.  Each turn is
 proved to be `Iterate` on the value of the object, and the loop to be `Run`.
 */
module RelayClient {
  import opened ByteType
  import opened RelaySpec
  import opened RelayProperties

  class Client {
    const to: array<Byte>
    const fr: array<Byte>
    var toS: nat
    var toE: nat
    var frS: nat
    var frE: nat
    var connected: bool
    var stdinEof: bool
    var status: Status
    ghost var stdin: seq<Byte>
    ghost var sent: seq<Byte>
    ghost var received: seq<Byte>
    ghost var printed: seq<Byte>
    ghost var shutdowns: nat

    ghost function Value(): Relay
      reads this, to, fr
    {
      Relay(Buffer(to[..], toS, toE), Buffer(fr[..], frS, frE), connected, stdinEof, status,
            stdin, sent, received, printed, shutdowns)
    }

    /** Buffers of 1024 and 512 bytes; `connected` says whether `connect` succeeded at once. */
    constructor (connected: bool)
      ensures Init(Value()) && to != fr && fresh(to) && fresh(fr) && to.Length == 1024 && fr.Length == 512
      ensures this.connected == connected
    {
      to, fr := new Byte[1024](_ => 0), new Byte[512](_ => 0);
      toS, toE, frS, frE := 0, 0, 0, 0;
      this.connected, stdinEof, status := connected, false, Going;
      stdin, sent, received, printed, shutdowns := [], [], [], [], 0;
    }

    /** The events the turn polls for: the connection's outcome first, and then whatever can be moved. */
    method Events() returns (q: PollResult)
      requires Sound(Value())
      ensures q == Requests(Value())
      ensures !connected ==> q == Ready(false, true, true, false)
      ensures connected ==>
          && q.Ready? && (q.stdinIn <==> !stdinEof && toE < to.Length) && (q.sockIn <==> frE < fr.Length)
          && (q.sockOut <==> to[toS..toE] != []) && (q.stdoutOut <==> fr[frS..frE] != [])
    {
      if !connected {
        return Ready(false, true, true, false);
      }
      var stdinIn, sockIn, sockOut, stdoutOut := false, false, false, false;
      if !stdinEof && toE < to.Length {
        stdinIn := true;
      }
      if frE < fr.Length {
        sockIn := true;
      }
      if toS != toE {
        sockOut := true;
      }
      if frS != frE {
        stdoutOut := true;
      }
      q := Ready(stdinIn, sockIn, sockOut, stdoutOut);
    }

    method ReadStdin(env: Env) returns (canWriteFd: bool)
      requires to != fr && Sound(Value()) && Permitted(Value(), env) && env.poll.Ready?
      modifies this`toE, this`stdin, this`stdinEof, this`shutdowns, this`status, to
      ensures Value() == StdinBlock(old(Value()), env) && canWriteFd == GotStdin(old(Value()), env)
    {
      canWriteFd := false;
      if env.poll.stdinIn {
        match env.stdinRead {
          case Bytes(data) =>
            forall i | 0 <= i < |data| {
              to[toE + i] := data[i];
            }
            toE := toE + |data|;
            stdin := stdin + data;
            canWriteFd := true;
          case Eof =>
            stdinEof := true;
            if toS == toE {
              shutdowns := shutdowns + 1;
            }
          case ReadWouldBlock =>
          case ReadFailed => status := Died;
        }
      }
    }

    method ReadSocket(env: Env) returns (canWriteOut: bool)
      requires to != fr && Sound(Value()) && ReadAllowed(Value().fr.Room(), env.sockRead)
      modifies this`frE, this`received, this`status, fr
      ensures Value() == SocketRead(old(Value()), env) && canWriteOut == env.sockRead.Bytes?
    {
      canWriteOut := false;
      match env.sockRead {
        case Bytes(data) =>
          forall i | 0 <= i < |data| {
            fr[frE + i] := data[i];
          }
          frE := frE + |data|;
          received := received + data;
          canWriteOut := true;
        case Eof => status := Stopped;
        case ReadWouldBlock =>
        case ReadFailed => status := Died;
      }
    }

    method WriteSocket(env: Env)
      requires to != fr && Sound(Value()) && WriteAllowed(toE - toS, env.sockWrite)
      modifies this`toS, this`toE, this`sent, this`shutdowns, this`status
      ensures Value() == SocketWrite(old(Value()), env)
    {
      var count := toE - toS;
      if count > 0 {
        match env.sockWrite {
          case Wrote(n) =>
            sent := sent + to[toS..toS + n];
            toS := toS + n;
            if toS == toE {
              toS, toE := 0, 0;
              if stdinEof {
                shutdowns := shutdowns + 1;
              }
            }
          case WriteWouldBlock =>
          case WriteFailed => status := Died;
        }
      }
    }

    method WriteStdout(env: Env)
      requires to != fr && Sound(Value()) && WriteAllowed(frE - frS, env.stdoutWrite)
      modifies this`frS, this`frE, this`printed, this`status
      ensures Value() == StdoutBlock(old(Value()), env, true)
    {
      var count := frE - frS;
      if count <= 0 {
        return;
      }
      match env.stdoutWrite {
        case Wrote(n) =>
          printed := printed + fr[frS..frS + n];
          frS := frS + n;
          if frS == frE {
            frS, frE := 0, 0;
          }
        case WriteWouldBlock =>
        case WriteFailed => status := Died;
      }
    }

    /** What a turn does with the socket: finish connecting, or read, or else write. */
    method ServeSocket(env: Env, canWriteFd: bool) returns (canWriteOut: bool)
      requires to != fr && Sound(Value()) && env.poll.Ready?
      requires ReadAllowed(Value().fr.Room(), env.sockRead) && WriteAllowed(toE - toS, env.sockWrite)
      modifies this, fr
      ensures Value() == SocketBlock(old(Value()), env, canWriteFd) && canWriteOut == GotSocket(old(Value()), env)
    {
      canWriteOut := false;
      if canWriteFd || env.poll.sockIn || env.poll.sockOut {
        if !connected {
          if env.connectOk {
            connected := true;
          } else {
            status := Died;
          }
        } else if env.poll.sockIn {
          canWriteOut := ReadSocket(env);
        } else {
          WriteSocket(env);
        }
      }
    }

    /** One turn of the loop, and the events it asked for. */
    method Turn(env: Env) returns (asked: PollResult)
      requires to != fr && Inv(Value()) && Permitted(Value(), env) && status == Going
      modifies this, to, fr
      ensures asked == Requests(old(Value())) && Value() == Iterate(old(Value()), env) && Inv(Value())
    {
      asked := Events();
      ghost var r := Value();
      IterateKeepsInv(r, env);
      if env.poll.PollFailed? {
        status := Stopped;
      } else if env.poll.Ready? {
        StdinBlockKeepsInv(r, env);
        StdinBlockLeavesFr(r, env);
        var canWriteFd := ReadStdin(env);
        if status != Going {
          return;
        }
        ghost var r1 := Value();
        SocketBlockKeepsInv(r1, env, canWriteFd);
        var canWriteOut := ServeSocket(env, canWriteFd);
        if status != Going {
          return;
        }
        if canWriteOut || env.poll.stdoutOut {
          WriteStdout(env);
        }
      }
    }

    /** The loop, for as many turns as `envs` has answers. */
    method Loop(envs: seq<Env>)
      requires to != fr && Inv(Value()) && PermittedRun(Value(), envs)
      modifies this, to, fr
      ensures Value() == Run(old(Value()), envs) && Inv(Value())
    {
      var i := 0;
      while i < |envs| && status == Going
        invariant i <= |envs| && Inv(Value())
        invariant PermittedRun(Value(), envs[i..]) && Run(Value(), envs[i..]) == Run(old(Value()), envs)
      {
        assert envs[i..][0] == envs[i] && envs[i..][1..] == envs[i + 1..];
        var _ := Turn(envs[i]);
        i := i + 1;
      }
    }
  }
}
