/** The per-connection handler `handle_client` (Server.py): registration, the `NAME`
    handshake, the welcome line, the command loop and the cleanup that runs however the
    handler ends.

    What the handler sends is specified by pure functions of the bytes the client sends:
    `Transcript` is the whole output of a session when every send goes through. A send
    that fails ends the session (the exception reaches the handler's `except`), and as no
    later send delivers anything, the bytes on the wire are always `Transcript` cut to
    the room the connection had. */
module Session {
  import opened Text
  import opened LineChannel
  import opened FileTransfer
  import opened Registry
  import opened Admission

  const VERSION := "1.2"
  const TEAM := "Kunal Gandhi & Muzzi Khan"

  /** What a handler consults besides the shared state: the regular files of the
      repository, what `list_files()` returns, SHA-256, and the whole seconds since the
      server started at the time of each command of the session (`uptime`). */
  datatype Env = Env(files: map<string, seq<byte>>, listing: seq<string>,
                     sha: seq<byte> -> Digest, uptime: nat -> nat)

  const HELP_LINE := "CMDS: help | status | list | get <file> | <filename> | ping | who | uptime | about | exit"
  const ABOUT_LINE := "ABOUT Team: " + TEAM + " | Demo: Oct 24, 10:30 AM | Version: " + VERSION
  const HANDSHAKE_ERROR := "ERR expected NAME <clientName>"

  function MismatchLine(name: string): string {
    "WARN name-mismatch, using " + name
  }

  function WelcomeLine(name: string): string {
    "WELCOME " + name + " | SERVER v" + VERSION
  }

  function UptimeLine(seconds: nat): string {
    "UPTIME " + Decimal(seconds) + "s"
  }

  /** The lines `list` sends. */
  function FilesLines(listing: seq<string>): seq<string> {
    ["FILES BEGIN"] + listing + ["FILES END"]
  }

  /** The reply to a non-empty command line other than `exit`, the `k`-th of the session,
      in the order the handler tests the verbs on the lower-cased line. */
  function Respond(cmd: string, st: State, env: Env, k: nat): seq<byte>
    requires Listed(st)
  {
    var verb := Lower(cmd);
    if verb == "status" then Lines(StatusLines(st))
    else if verb == "list" then Lines(FilesLines(env.listing))
    else if StartsWith(verb, "get ") then FileReply(Strip(cmd[4..]), env.files, env.sha)
    else if verb == "help" then LineBytes(HELP_LINE)
    else if verb == "who" then LineBytes(WhoLine(st.active))
    else if verb == "ping" then LineBytes("PONG")
    else if verb == "uptime" then LineBytes(UptimeLine(env.uptime(k)))
    else if verb == "about" then LineBytes(ABOUT_LINE)
    else if SafeName(cmd) && cmd in env.files then FileReply(cmd, env.files, env.sha)
    else LineBytes(cmd + " ACK")
  }

  /** What a stretch of the session sends, and whether it ended with a reset of the
      connection (which the handler answers with an `ERR` line). */
  datatype Talk = Talk(out: seq<byte>, reset: bool)

  /** The command loop on a stream that holds `input` and then ends or resets; `k`
      commands have been answered before. */
  function Commands(input: seq<byte>, resets: bool, st: State, env: Env, k: nat): Talk
    requires Listed(st)
    decreases |input|
  {
    match ReadLine(input, resets)
    case Broken => Talk([], true)
    case Got(line, n) =>
      if line == "" then Talk([], false)
      else
        var cmd := Strip(line);
        if Lower(cmd) == "exit" then Talk(LineBytes("BYE"), false)
        else
          ReadLineFacts(input, resets);
          var rest := Commands(input[n..], resets, st, env, k + 1);
          Talk(Respond(cmd, st, env, k) + rest.out, rest.reset)
  }

  /** The handler's answer to the client's first line. */
  function Handshake(line: string, name: string): seq<byte> {
    if line == "" || !StartsWith(line, "NAME ") then LineBytes(HANDSHAKE_ERROR)
    else if Strip(line[5..]) != name then LineBytes(MismatchLine(name))
    else []
  }

  /** The `try` block of the handler after registration: the `NAME` line and the rest. */
  function SessionTalk(input: seq<byte>, resets: bool, st: State, env: Env, name: string): Talk
    requires Listed(st)
  {
    var rest := Greeting(input, resets, st, env, name);
    Talk(LineBytes("NAME " + name) + rest.out, rest.reset)
  }

  /** After the `NAME` line: the client's first line, the handshake answer, the welcome
      line and the command loop. */
  function Greeting(input: seq<byte>, resets: bool, st: State, env: Env, name: string): Talk
    requires Listed(st)
  {
    match ReadLine(input, resets)
    case Broken => Talk([], true)
    case Got(line, n) =>
      var rest := Commands(input[n..], resets, st, env, 0);
      Talk(Handshake(line, name) + (LineBytes(WelcomeLine(name)) + rest.out), rest.reset)
  }

  const RESET_ERROR := "ERR " + FaultText(ConnectionReset)

  /** Everything a session sends when no send fails: the `try` block and, after a reset,
      the `ERR` line of the `except` block. */
  function Transcript(input: seq<byte>, resets: bool, st: State, env: Env, name: string): seq<byte>
    requires Listed(st)
  {
    var t := SessionTalk(input, resets, st, env, name);
    t.out + (if t.reset then LineBytes(RESET_ERROR) else [])
  }

  // ----- the session on lines -----

  /** The command loop on the lines a client sent, one command per line: the reply to
      each stripped line until an empty line or `exit`; `reset` says the lines ran out. */
  function Replies(script: seq<string>, st: State, env: Env, k: nat): Talk
    requires Listed(st)
    decreases |script|
  {
    if script == [] then Talk([], true)
    else
      var cmd := Strip(script[0]);
      if cmd == "" then Talk([], false)
      else if Lower(cmd) == "exit" then Talk(LineBytes("BYE"), false)
      else
        var rest := Replies(script[1..], st, env, k + 1);
        Talk(Respond(cmd, st, env, k) + rest.out, rest.reset)
  }

  /** The byte-level loop reads the lines a client sent back one command each: on a
      stream of `send_line` lines that then ends it answers what `Replies` answers, and it
      sees a reset exactly when the lines ran out before an empty line or `exit` and the
      stream resets. */
  lemma {:induction false} CommandsOverLines(script: seq<string>, resets: bool, st: State, env: Env, k: nat)
    requires Listed(st)
    requires forall i :: 0 <= i < |script| ==> '\n' !in script[i] && AllAscii(script[i])
    ensures var r := Replies(script, st, env, k);
      Commands(Lines(script), resets, st, env, k) == Talk(r.out, r.reset && resets)
    decreases |script|
  {
    if script != [] {
      var x := script[0];
      var more := script[1..];
      assert script == [x] + more;
      LinesAppend([x], more);
      assert Lines([x]) == LineBytes(x);
      LineRoundTrip(x, Lines(more), resets);
      assert (LineBytes(x) + Lines(more))[|LineBytes(x)|..] == Lines(more);
      StripIdempotent(x);
      if Strip(x) != "" && Lower(Strip(x)) != "exit" {
        CommandsOverLines(more, resets, st, env, k + 1);
      }
    }
  }

  /** `get` is matched without regard to case, but the file name keeps its case: it is
      taken from the command as typed, after the four characters of the verb. */
  lemma GetKeepsCase(verb: string, name: string, st: State, env: Env, k: nat)
    requires Listed(st) && |verb| == 4 && Lower(verb) == "get "
    ensures Respond(verb + name, st, env, k) == FileReply(Strip(name), env.files, env.sha)
  {
    var cmd := verb + name;
    assert Lower(cmd)[..4] == Lower(verb);
    assert Lower(cmd)[0] == 'g';
    assert cmd[4..] == name;
  }

  /** A command whose lower-cased first letter starts no verb and that names no file the
      server would send is echoed. */
  lemma EchoByFirstLetter(cmd: string, st: State, env: Env, k: nat)
    requires Listed(st) && cmd != [] && !(SafeName(cmd) && cmd in env.files)
    requires Lower(cmd)[0] !in "slghwpua"
    ensures Respond(cmd, st, env, k) == LineBytes(cmd + " ACK")
  {
    var verb := Lower(cmd);
    var c := verb[0];
    assert verb != "status" && verb != "list" && verb != "help" && verb != "who" by {
      assert c != 's' && c != 'l' && c != 'h' && c != 'w';
    }
    assert verb != "ping" && verb != "uptime" && verb != "about" by {
      assert c != 'p' && c != 'u' && c != 'a';
    }
    assert !StartsWith(verb, "get ") by {
      assert c != 'g';
      if |verb| >= 4 {
        assert verb[..4][0] == c;
      }
    }
  }

  // ----- the handler -----

  /** One turn of the command loop after `exit` and the empty line are ruled out: the
      `if`/`elif` chain on the lower-cased command. */
  method Dispatch(conn: Socket, reg: Registry, cmd: string, env: Env, k: nat) returns (ok: bool)
    requires reg.Valid()
    modifies conn
    ensures ok == (|Respond(cmd, reg.Abs(), env, k)| <= old(conn.room))
    ensures Wrote(old(conn.outbox), old(conn.room), conn.outbox, conn.room, Respond(cmd, reg.Abs(), env, k))
    ensures conn.inbox == old(conn.inbox) && conn.resets == old(conn.resets) && conn.closed == old(conn.closed)
  {
    var verb := Lower(cmd);
    if verb == "status" {
      var lines := reg.StatusSnapshot();
      ok := SendLines(conn, lines);
    } else if verb == "list" {
      ok := SendLines(conn, FilesLines(env.listing));
    } else if StartsWith(verb, "get ") {
      var filename := Strip(cmd[4..]);
      ok := SendFile(conn, filename, env.files, env.sha);
    } else if verb == "help" {
      ok := SendLine(conn, HELP_LINE);
    } else if verb == "who" {
      var line := reg.WhoSnapshot();
      ok := SendLine(conn, line);
    } else if verb == "ping" {
      ok := SendLine(conn, "PONG");
    } else if verb == "uptime" {
      ok := SendLine(conn, UptimeLine(env.uptime(k)));
    } else if verb == "about" {
      ok := SendLine(conn, ABOUT_LINE);
    } else if SafeName(cmd) && cmd in env.files {
      ok := SendFile(conn, cmd, env.files, env.sha);
    } else {
      ok := SendLine(conn, cmd + " ACK");
    }
  }

  /** How one turn of the command loop ends: the loop goes on, or it stops with the
      exception that stopped it, if any. */
  datatype Step = More | Done(fault: Option<Fault>)

  /** The command loop: `fault` is the exception that ended it, if any. */
  method Converse(conn: Socket, reg: Registry, env: Env) returns (fault: Option<Fault>)
    requires reg.Valid()
    modifies conn
    ensures var t := Commands(old(conn.inbox), old(conn.resets), reg.Abs(), env, 0);
      && Wrote(old(conn.outbox), old(conn.room), conn.outbox, conn.room, t.out)
      && (fault == None <==> |t.out| <= old(conn.room) && !t.reset)
      && (fault == Some(ConnectionReset) <==> |t.out| <= old(conn.room) && t.reset)
      && (fault == Some(BrokenPipe) <==> |t.out| > old(conn.room))
    ensures conn.resets == old(conn.resets) && conn.closed == old(conn.closed)
  {
    ghost var st := reg.Abs();
    ghost var whole := Commands(conn.inbox, conn.resets, st, env, 0);
    ghost var o0, r0 := conn.outbox, conn.room;
    ghost var done: seq<byte> := [];
    WroteNothing(o0, r0);
    var k := 0;
    while true
      invariant Wrote(o0, r0, conn.outbox, conn.room, done) && |done| <= r0
      invariant done + Commands(conn.inbox, conn.resets, st, env, k).out == whole.out
      invariant Commands(conn.inbox, conn.resets, st, env, k).reset == whole.reset
      invariant conn.resets == old(conn.resets) && conn.closed == old(conn.closed)
      decreases |conn.inbox|
    {
      ghost var o1, r1 := conn.outbox, conn.room;
      ghost var t := Commands(conn.inbox, conn.resets, st, env, k);
      var step, reply := Turn(conn, reg, env, k);
      if step.Done? {
        WroteThen(o0, r0, o1, r1, done, conn.outbox, conn.room, t.out);
        return step.fault;
      }
      WroteThen(o0, r0, o1, r1, done, conn.outbox, conn.room, reply);
      Associative(done, reply, Commands(conn.inbox, conn.resets, st, env, k + 1).out);
      done := done + reply;
      k := k + 1;
    }
  }

  /** One turn of the command loop, the `k`-th: read a line; stop at the empty line or
      at a reset; answer `exit` with `BYE` and stop; otherwise dispatch and go on unless
      the reply could not be sent. `reply` is what the turn sent when the loop goes on. */
  method Turn(conn: Socket, reg: Registry, env: Env, k: nat) returns (step: Step, ghost reply: seq<byte>)
    requires reg.Valid()
    modifies conn
    ensures var t := Commands(old(conn.inbox), old(conn.resets), reg.Abs(), env, k);
      match step
      case More =>
        var rest := Commands(conn.inbox, conn.resets, reg.Abs(), env, k + 1);
        && |conn.inbox| < |old(conn.inbox)|
        && Wrote(old(conn.outbox), old(conn.room), conn.outbox, conn.room, reply)
        && |reply| <= old(conn.room)
        && t.out == reply + rest.out && t.reset == rest.reset
      case Done(fault) =>
        && Wrote(old(conn.outbox), old(conn.room), conn.outbox, conn.room, t.out)
        && (fault == None <==> |t.out| <= old(conn.room) && !t.reset)
        && (fault == Some(ConnectionReset) <==> |t.out| <= old(conn.room) && t.reset)
        && (fault == Some(BrokenPipe) <==> |t.out| > old(conn.room))
    ensures conn.resets == old(conn.resets) && conn.closed == old(conn.closed)
  {
    ghost var before := conn.inbox;
    ghost var o0, r0 := conn.outbox, conn.room;
    var line := RecvLine(conn);
    ReadLineFacts(before, conn.resets);
    if line.Broken? {
      WroteNothing(o0, r0);
      return Done(Some(ConnectionReset)), [];
    }
    if line.text == "" {
      WroteNothing(o0, r0);
      return Done(None), [];
    }
    var cmd := Strip(line.text);
    if Lower(cmd) == "exit" {
      var ok := SendLine(conn, "BYE");
      return Done(if ok then None else Some(BrokenPipe)), [];
    }
    var ok := Dispatch(conn, reg, cmd, env, k);
    reply := Respond(cmd, reg.Abs(), env, k);
    if !ok {
      WroteStopped(o0, r0, conn.outbox, conn.room, reply, Commands(conn.inbox, conn.resets, reg.Abs(), env, k + 1).out);
      return Done(Some(BrokenPipe)), reply;
    }
    step := More;
  }

  /** The handshake answer: an error for a first line that is empty or lacks the `NAME `
      prefix, a warning for a claimed name that differs from the assigned one. */
  method Answer(conn: Socket, line: string, name: string) returns (ok: bool)
    modifies conn
    ensures ok == (|Handshake(line, name)| <= old(conn.room))
    ensures Wrote(old(conn.outbox), old(conn.room), conn.outbox, conn.room, Handshake(line, name))
    ensures conn.inbox == old(conn.inbox) && conn.resets == old(conn.resets) && conn.closed == old(conn.closed)
  {
    if line == "" || !StartsWith(line, "NAME ") {
      ok := SendLine(conn, HANDSHAKE_ERROR);
    } else {
      var claimed := Strip(line[5..]);
      if claimed != name {
        ok := SendLine(conn, MismatchLine(name));
      } else {
        ok := true;
        WroteNothing(conn.outbox, conn.room);
      }
    }
  }

  /** The `try` block of `handle_client` after registration: `NAME`, then the rest. */
  method Serve(conn: Socket, reg: Registry, name: string, env: Env) returns (fault: Option<Fault>)
    requires reg.Valid()
    modifies conn
    ensures var t := SessionTalk(old(conn.inbox), old(conn.resets), reg.Abs(), env, name);
      && Wrote(old(conn.outbox), old(conn.room), conn.outbox, conn.room, t.out)
      && (fault == None <==> |t.out| <= old(conn.room) && !t.reset)
      && (fault == Some(ConnectionReset) <==> |t.out| <= old(conn.room) && t.reset)
      && (fault == Some(BrokenPipe) <==> |t.out| > old(conn.room))
    ensures conn.resets == old(conn.resets) && conn.closed == old(conn.closed)
  {
    ghost var rest := Greeting(conn.inbox, conn.resets, reg.Abs(), env, name);
    ghost var o0, r0 := conn.outbox, conn.room;
    ghost var hello := LineBytes("NAME " + name);
    var ok := SendLine(conn, "NAME " + name);
    if !ok {
      WroteStopped(o0, r0, conn.outbox, conn.room, hello, rest.out);
      return Some(BrokenPipe);
    }
    ghost var o1, r1 := conn.outbox, conn.room;
    fault := Greet(conn, reg, name, env);
    WroteThen(o0, r0, o1, r1, hello, conn.outbox, conn.room, rest.out);
  }

  /** The client's first line, the handshake answer, then the welcome and the loop. */
  method Greet(conn: Socket, reg: Registry, name: string, env: Env) returns (fault: Option<Fault>)
    requires reg.Valid()
    modifies conn
    ensures var t := Greeting(old(conn.inbox), old(conn.resets), reg.Abs(), env, name);
      && Wrote(old(conn.outbox), old(conn.room), conn.outbox, conn.room, t.out)
      && (fault == None <==> |t.out| <= old(conn.room) && !t.reset)
      && (fault == Some(ConnectionReset) <==> |t.out| <= old(conn.room) && t.reset)
      && (fault == Some(BrokenPipe) <==> |t.out| > old(conn.room))
    ensures conn.resets == old(conn.resets) && conn.closed == old(conn.closed)
  {
    ghost var o0, r0 := conn.outbox, conn.room;
    var line := RecvLine(conn);
    if line.Broken? {
      WroteNothing(o0, r0);
      return Some(ConnectionReset);
    }
    ghost var answer := Handshake(line.text, name);
    ghost var rest := LineBytes(WelcomeLine(name)) + Commands(conn.inbox, conn.resets, reg.Abs(), env, 0).out;
    var ok := Answer(conn, line.text, name);
    if !ok {
      WroteStopped(o0, r0, conn.outbox, conn.room, answer, rest);
      return Some(BrokenPipe);
    }
    ghost var o1, r1 := conn.outbox, conn.room;
    fault := Welcome(conn, reg, name, env);
    WroteThen(o0, r0, o1, r1, answer, conn.outbox, conn.room, rest);
  }

  /** The rest of the `try` block: the welcome line and the command loop. */
  method Welcome(conn: Socket, reg: Registry, name: string, env: Env)
    returns (fault: Option<Fault>)
    requires reg.Valid()
    modifies conn
    ensures var t := Commands(old(conn.inbox), old(conn.resets), reg.Abs(), env, 0);
      var out := LineBytes(WelcomeLine(name)) + t.out;
      && Wrote(old(conn.outbox), old(conn.room), conn.outbox, conn.room, out)
      && (fault == None <==> |out| <= old(conn.room) && !t.reset)
      && (fault == Some(ConnectionReset) <==> |out| <= old(conn.room) && t.reset)
      && (fault == Some(BrokenPipe) <==> |out| > old(conn.room))
    ensures conn.resets == old(conn.resets) && conn.closed == old(conn.closed)
  {
    ghost var t := Commands(conn.inbox, conn.resets, reg.Abs(), env, 0);
    ghost var o0, r0 := conn.outbox, conn.room;
    ghost var w := LineBytes(WelcomeLine(name));
    var ok := SendLine(conn, WelcomeLine(name));
    if !ok {
      WroteStopped(o0, r0, conn.outbox, conn.room, w, t.out);
      return Some(BrokenPipe);
    }
    ghost var o1, r1 := conn.outbox, conn.room;
    fault := Converse(conn, reg, env);
    WroteThen(o0, r0, o1, r1, w, conn.outbox, conn.room, t.out);
  }

  /** `handle_client(conn, addr)`: registration under the lock, the session with its
      `except` block, and the cleanup of the `finally` block, which runs on every path:
      close, deregister and stamp, release one slot. `accepted` and `finished` are the two
      `now_iso()` readings. */
  method HandleClient(conn: Socket, reg: Registry, sem: Semaphore, env: Env,
                      addr: string, accepted: string, finished: string)
    requires reg.Valid()
    modifies conn, reg, sem
    ensures var st := Registered(old(reg.Abs()), accepted, addr);
      var name := NextName(old(reg.Abs()));
      && Wrote(old(conn.outbox), old(conn.room), conn.outbox, conn.room,
               Transcript(old(conn.inbox), old(conn.resets), st, env, name))
      && reg.Abs() == Finished(st, name, finished) && reg.Valid()
    ensures sem.value == old(sem.value) + 1
    ensures conn.closed
  {
    var name := reg.Register(accepted, addr);
    Attempt(conn, reg, name, env);
    conn.Close();
    reg.Finish(name, finished);
    sem.Release();
  }

  /** The `try` block and, when it raised, the `except` block's best-effort `ERR` line. */
  method Attempt(conn: Socket, reg: Registry, name: string, env: Env)
    requires reg.Valid()
    modifies conn
    ensures Wrote(old(conn.outbox), old(conn.room), conn.outbox, conn.room,
                  Transcript(old(conn.inbox), old(conn.resets), reg.Abs(), env, name))
    ensures conn.closed == old(conn.closed)
  {
    ghost var t := SessionTalk(conn.inbox, conn.resets, reg.Abs(), env, name);
    ghost var o0, r0 := conn.outbox, conn.room;
    var fault := Serve(conn, reg, name, env);
    ghost var tail := if t.reset then LineBytes(RESET_ERROR) else [];
    if fault.Some? {
      ghost var o1, r1 := conn.outbox, conn.room;
      var sent := SendLine(conn, "ERR " + FaultText(fault.value));
      if fault == Some(BrokenPipe) {
        WroteAfterFailure(o0, r0, o1, r1, t.out, conn.outbox, conn.room,
                          LineBytes("ERR " + FaultText(BrokenPipe)), tail);
      } else {
        WroteThen(o0, r0, o1, r1, t.out, conn.outbox, conn.room, tail);
      }
    } else {
      assert t.out + tail == t.out;
    }
  }
}
