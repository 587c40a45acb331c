/** The client (Client.py): it reads the server's greeting, answers the `NAME` handshake,
    shows the welcome line, and then sends each line the user types and reads the reply,
    whose first line decides how much more it reads.

    The user's input is a script of lines; when it runs out (end of input or an
    interrupt) the client sends `exit`. What the client shows and saves is recorded as a
    sequence of replies; a send that does not go through and a reset while reading are
    exceptions that end the client. */
module Client {
  import opened Text
  import opened LineChannel
  import opened FileTransfer

  /** What the server's first line means to the client. */
  datatype Intro = Full | Unexpected(line: string) | Assigned(name: string)

  /** The greeting checks, in order: `SERVER FULL`, then the `NAME ` prefix; the assigned
      name is everything after the first space. */
  function ReadIntro(line: string): (i: Intro)
    ensures i.Full? <==> line == "SERVER FULL"
    ensures i.Assigned? <==> line != "SERVER FULL" && StartsWith(line, "NAME ")
    ensures i.Assigned? ==> line == "NAME " + i.name
    ensures i.Unexpected? ==> i.line == line
  {
    if line == "SERVER FULL" then Full
    else if !StartsWith(line, "NAME ") then Unexpected(line)
    else Assigned(line[5..])
  }

  /** What the client shows for one reply: a `STATUS` or `FILES` table, a download, or one
      line. */
  datatype Reply = Status(rows: seq<string>) | Files(names: seq<string>) | Download(receipt: Receipt) | Single(text: string)

  /** The lines of a table and the bytes they took, or the lines shown before a reset. */
  datatype BlockRead = Block(lines: seq<string>, consumed: nat) | BlockCut(lines: seq<string>)

  /** The inner loop for `STATUS BEGIN` and `FILES BEGIN`: lines until `end` or an empty
      line (which the end of the stream also gives); a reset raises after the lines shown
      so far. */
  function ReadBlock(input: seq<byte>, resets: bool, end: string): (b: BlockRead)
    ensures b.Block? ==> b.consumed <= |input|
    decreases |input|
  {
    ReadLineFacts(input, resets);
    match ReadLine(input, resets)
    case Broken => BlockCut([])
    case Got(line, n) =>
      if line == end || line == "" then Block([], n)
      else
        match ReadBlock(input[n..], resets, end)
        case BlockCut(ls) => BlockCut([line] + ls)
        case Block(ls, m) => Block([line] + ls, n + m)
  }

  /** `shown` lines already read, taking `used` bytes, before the rest `b` of a table. */
  function After(shown: seq<string>, used: nat, b: BlockRead): BlockRead {
    match b
    case BlockCut(ls) => BlockCut(shown + ls)
    case Block(ls, m) => Block(shown + ls, used + m)
  }

  lemma AfterEnd(shown: seq<string>, used: nat, n: nat)
    ensures After(shown, used, Block([], n)) == Block(shown, used + n)
    ensures After(shown, used, BlockCut([])) == BlockCut(shown)
  {
    assert shown + [] == shown;
  }

  /** One more line read: what was owed after `shown` is that line and what is owed after it. */
  lemma AfterAfter(whole: BlockRead, shown: seq<string>, used: nat, line: string, n: nat, b0: BlockRead, b: BlockRead)
    requires whole == After(shown, used, b0) && b0 == After([line], n, b)
    ensures whole == After(shown + [line], used + n, b)
  {
    Associative(shown, [line], b.lines);
  }

  /** A line of a table that reads back as itself: non-empty ASCII without a newline or
      surrounding whitespace, and not the end line. */
  predicate TableLine(x: string, end: string) {
    x != "" && x != end && Plain(x)
  }

  /** The end line of a table that reads back as itself. */
  predicate EndLine(end: string) {
    Plain(end)
  }

  lemma ReadBlockEnd(end: string, rest: seq<byte>, resets: bool)
    requires EndLine(end)
    ensures ReadBlock(LineBytes(end) + rest, resets, end) == Block([], |LineBytes(end)|)
  {
    PlainRoundTrip(end, rest, resets);
  }

  lemma ReadBlockLine(x: string, end: string, tail: seq<byte>, resets: bool)
    requires TableLine(x, end)
    ensures ReadBlock(LineBytes(x) + tail, resets, end)
         == After([x], |LineBytes(x)|, ReadBlock(tail, resets, end))
  {
    PlainRoundTrip(x, tail, resets);
  }

  /** A table sent as `send_line` lines and its end line is read back line for line,
      taking exactly its bytes. */
  lemma {:induction false} BlockRoundTrip(lines: seq<string>, end: string, rest: seq<byte>, resets: bool)
    requires EndLine(end)
    requires forall i :: 0 <= i < |lines| ==> TableLine(lines[i], end)
    ensures ReadBlock(Lines(lines + [end]) + rest, resets, end) == Block(lines, |Lines(lines + [end])|)
    decreases |lines|
  {
    if lines == [] {
      assert lines + [end] == [end];
      assert Lines([end]) == LineBytes(end);
      ReadBlockEnd(end, rest, resets);
    } else {
      var x := lines[0];
      var more := lines[1..];
      var sent := Lines(more + [end]);
      var tail := sent + rest;
      assert lines + [end] == [x] + (more + [end]);
      LinesAppend([x], more + [end]);
      assert Lines([x]) == LineBytes(x);
      assert Lines(lines + [end]) == LineBytes(x) + sent;
      Associative(LineBytes(x), sent, rest);
      ReadBlockLine(x, end, tail, resets);
      BlockRoundTrip(more, end, rest, resets);
      var b := ReadBlock(tail, resets, end);
      assert b == Block(more, |sent|);
      assert After([x], |LineBytes(x)|, b) == Block([x] + more, |LineBytes(x)| + |sent|);
      assert [x] + more == lines;
    }
  }

  /** One line of a table: a reset, the last line, or a line and the rest. */
  lemma ReadBlockStep(input: seq<byte>, resets: bool, end: string)
    ensures ReadLine(input, resets).Broken? ==> ReadBlock(input, resets, end) == BlockCut([])
    ensures var r := ReadLine(input, resets);
      r.Got? ==>
        && r.consumed <= |input|
        && (r.text == end || r.text == "" ==> ReadBlock(input, resets, end) == Block([], r.consumed))
        && (r.text != end && r.text != "" ==>
              && r.consumed >= 1
              && ReadBlock(input, resets, end) == After([r.text], r.consumed, ReadBlock(input[r.consumed..], resets, end)))
  {
    ReadLineFacts(input, resets);
  }

  /** `recv_line` until `end` or an empty line. */
  method RecvBlock(sock: Socket, end: string) returns (b: BlockRead)
    modifies sock
    ensures b == ReadBlock(old(sock.inbox), old(sock.resets), end)
    ensures b.Block? ==> sock.inbox == old(sock.inbox)[b.consumed..]
    ensures sock.outbox == old(sock.outbox) && sock.room == old(sock.room) && sock.resets == old(sock.resets)
  {
    ghost var input, resets := sock.inbox, sock.resets;
    var shown: seq<string> := [];
    var used: nat := 0;
    while true
      invariant used <= |input| && sock.inbox == input[used..]
      invariant ReadBlock(input, resets, end) == After(shown, used, ReadBlock(sock.inbox, resets, end))
      invariant sock.outbox == old(sock.outbox) && sock.room == old(sock.room) && sock.resets == resets
      decreases |sock.inbox|
    {
      ghost var before := sock.inbox;
      var line, last := RecvTableLine(sock, end);
      if line.Broken? {
        AfterEnd(shown, used, 0);
        return BlockCut(shown);
      }
      DropDrop(input, used, line.consumed);
      if last {
        AfterEnd(shown, used, line.consumed);
        return Block(shown, used + line.consumed);
      }
      AfterAfter(ReadBlock(input, resets, end), shown, used, line.text, line.consumed,
                 ReadBlock(before, resets, end), ReadBlock(sock.inbox, resets, end));
      assert sock.inbox == input[used + line.consumed..];
      shown := shown + [line.text];
      used := used + line.consumed;
    }
  }

  /** One `recv_line` of a table; `last` says it ends the table. */
  method RecvTableLine(sock: Socket, end: string) returns (line: LineRead, last: bool)
    modifies sock
    ensures var input, resets := old(sock.inbox), old(sock.resets);
      && line == ReadLine(input, resets)
      && (line.Broken? ==> ReadBlock(input, resets, end) == BlockCut([]))
      && (line.Got? ==> line.consumed <= |input| && sock.inbox == input[line.consumed..])
      && (line.Got? && last ==> ReadBlock(input, resets, end) == Block([], line.consumed))
      && (line.Got? && !last ==>
            && line.consumed >= 1
            && ReadBlock(input, resets, end) == After([line.text], line.consumed, ReadBlock(sock.inbox, resets, end)))
    ensures sock.outbox == old(sock.outbox) && sock.room == old(sock.room) && sock.resets == old(sock.resets)
  {
    ReadBlockStep(sock.inbox, sock.resets, end);
    line := RecvLine(sock);
    last := line.Got? && (line.text == end || line.text == "");
  }

  /** A reply read whole, with the bytes it took, or what was shown of it (if anything)
      before a reset. */
  datatype Heard = Heard(reply: Reply, consumed: nat) | Cut(shown: seq<Reply>)

  /** One reply: the first line, then what it says follows. */
  function ReadReply(input: seq<byte>, resets: bool, sha: seq<byte> -> Digest): (h: Heard)
    ensures h.Heard? ==> h.consumed <= |input|
  {
    ReadLineFacts(input, resets);
    match ReadLine(input, resets)
    case Broken => Cut([])
    case Got(resp, n) =>
      match Follow(resp, input[n..], resets, sha)
      case Cut(shown) => Cut(shown)
      case Heard(reply, m) => Heard(reply, n + m)
  }

  /** What follows the first line `resp` of a reply: a table for `STATUS BEGIN` and
      `FILES BEGIN`, a file for a `FILE ` header, nothing otherwise. */
  function Follow(resp: string, input: seq<byte>, resets: bool, sha: seq<byte> -> Digest): (h: Heard)
    ensures h.Heard? ==> h.consumed <= |input|
  {
    if resp == "STATUS BEGIN" then
      match ReadBlock(input, resets, "STATUS END")
      case BlockCut(ls) => Cut([Status(ls)])
      case Block(ls, m) => Heard(Status(ls), m)
    else if resp == "FILES BEGIN" then
      match ReadBlock(input, resets, "FILES END")
      case BlockCut(ls) => Cut([Files(ls)])
      case Block(ls, m) => Heard(Files(ls), m)
    else if StartsWith(resp, "FILE ") then
      var r := ReceiveSpec(resp, input, resets, sha);
      if r.Interrupted? then Cut([Download(r)])
      else Heard(Download(r), if r.Saved? then r.consumed else 0)
    else Heard(Single(resp), 0)
  }

  /** `resp = recv_line(sock)` and the `if`/`elif` chain on it. */
  method RecvReply(sock: Socket, sha: seq<byte> -> Digest) returns (h: Heard)
    modifies sock
    ensures h == ReadReply(old(sock.inbox), old(sock.resets), sha)
    ensures h.Heard? ==> sock.inbox == old(sock.inbox)[h.consumed..]
    ensures sock.outbox == old(sock.outbox) && sock.room == old(sock.room) && sock.resets == old(sock.resets)
  {
    ghost var input := sock.inbox;
    var resp := RecvLine(sock);
    if resp.Broken? {
      return Cut([]);
    }
    var rest := RecvFollow(sock, resp.text, sha);
    if rest.Cut? {
      return Cut(rest.shown);
    }
    DropDrop(input, resp.consumed, rest.consumed);
    h := Heard(rest.reply, resp.consumed + rest.consumed);
  }

  /** The branches of the `if`/`elif` chain. */
  method RecvFollow(sock: Socket, resp: string, sha: seq<byte> -> Digest) returns (h: Heard)
    modifies sock
    ensures h == Follow(resp, old(sock.inbox), old(sock.resets), sha)
    ensures h.Heard? ==> sock.inbox == old(sock.inbox)[h.consumed..]
    ensures sock.outbox == old(sock.outbox) && sock.room == old(sock.room) && sock.resets == old(sock.resets)
  {
    if resp == "STATUS BEGIN" {
      var b := RecvBlock(sock, "STATUS END");
      if b.BlockCut? {
        return Cut([Status(b.lines)]);
      }
      return Heard(Status(b.lines), b.consumed);
    } else if resp == "FILES BEGIN" {
      var b := RecvBlock(sock, "FILES END");
      if b.BlockCut? {
        return Cut([Files(b.lines)]);
      }
      return Heard(Files(b.lines), b.consumed);
    } else if StartsWith(resp, "FILE ") {
      var r := ReceiveFile(sock, resp, sha);
      if r.Interrupted? {
        return Cut([Download(r)]);
      }
      return Heard(Download(r), if r.Saved? then r.consumed else 0);
    }
    h := Heard(Single(resp), 0);
  }

  /** How the client ends. */
  datatype End = ServerFull | BadGreeting(line: string) | Bye(line: string) | Crashed(fault: Fault)

  /** A whole run of the client: the bytes it sent, the replies it showed (the welcome
      line first) and how it ended. */
  datatype Run = Run(sent: seq<byte>, replies: seq<Reply>, end: End)

  /** `sent` and `replies` of earlier turns, before the rest `r` of a run. */
  function Joined(sent: seq<byte>, replies: seq<Reply>, r: Run): Run {
    Run(sent + r.sent, replies + r.replies, r.end)
  }

  lemma JoinedJoined(a: seq<byte>, ra: seq<Reply>, b: seq<byte>, rb: seq<Reply>, r: Run)
    ensures Joined(a, ra, Joined(b, rb, r)) == Joined(a + b, ra + rb, r)
  {
    Associative(a, b, r.sent);
    Associative(ra, rb, r.replies);
  }

  /** One turn of the loop, after an empty line is skipped: it went on after a reply, or
      it stopped. */
  datatype Turn = Next(sent: seq<byte>, reply: Reply, consumed: nat) | Stop(sent: seq<byte>, shown: seq<Reply>, end: End)

  /** A turn for the non-empty line `msg`: send it; for `exit`, show one line and stop;
      otherwise read the reply. */
  function Exchange(input: seq<byte>, resets: bool, room: nat, msg: string, sha: seq<byte> -> Digest): (t: Turn)
    ensures t.Next? ==> t.consumed <= |input| && t.sent == LineBytes(msg) && |t.sent| <= room
    ensures t.Next? ==> Lower(msg) != "exit"
    ensures t.Stop? && t.end.Crashed? && t.end.fault == BrokenPipe ==> t.sent == Trunc(LineBytes(msg), room)
  {
    var bytes := LineBytes(msg);
    if |bytes| > room then Stop(Trunc(bytes, room), [], Crashed(BrokenPipe))
    else if Lower(msg) == "exit" then
      match ReadLine(input, resets)
      case Broken => Stop(bytes, [], Crashed(ConnectionReset))
      case Got(line, _) => Stop(bytes, [], Bye(line))
    else
      match ReadReply(input, resets, sha)
      case Cut(shown) => Stop(bytes, shown, Crashed(ConnectionReset))
      case Heard(reply, n) => Next(bytes, reply, n)
  }

  lemma LowerExit()
    ensures Lower("exit") == "exit"
  {
  }

  /** The line the client acts on next: the first line typed, stripped, or `exit` once
      the input has run out. */
  function Said(script: seq<string>): string {
    if script == [] then "exit" else Strip(script[0])
  }

  /** The user's loop on a stream that holds `input` and then ends or resets, with `room`
      bytes the server still accepts: an empty line is skipped, and a turn that stops
      ends the client. */
  function Conversation(input: seq<byte>, resets: bool, room: nat, script: seq<string>,
                        sha: seq<byte> -> Digest): Run
    decreases |script|
  {
    var msg := Said(script);
    if msg == "" then Conversation(input, resets, room, script[1..], sha)
    else
      LowerExit();
      match Exchange(input, resets, room, msg, sha)
      case Stop(sent, shown, end) => Run(sent, shown, end)
      case Next(sent, reply, n) =>
        Joined(sent, [reply], Conversation(input[n..], resets, room - |sent|, script[1..], sha))
  }

  /** One turn of the loop: skipping an empty line, stopping, or going on with the rest of
      the input; the input runs out only in a turn that stops. */
  lemma ConversationStep(input: seq<byte>, resets: bool, room: nat, script: seq<string>,
                         sha: seq<byte> -> Digest)
    ensures Said(script) == "" ==>
      (script != [] &&
       Conversation(input, resets, room, script, sha) == Conversation(input, resets, room, script[1..], sha))
    ensures var t := Exchange(input, resets, room, Said(script), sha);
      Said(script) != "" && t.Stop? ==> Conversation(input, resets, room, script, sha) == Run(t.sent, t.shown, t.end)
    ensures var t := Exchange(input, resets, room, Said(script), sha);
      Said(script) != "" && t.Next? ==>
        (script != [] &&
         Conversation(input, resets, room, script, sha)
         == Joined(t.sent, [t.reply], Conversation(input[t.consumed..], resets, room - |t.sent|, script[1..], sha)))
  {
    LowerExit();
  }

  /** One turn. */
  method Say(sock: Socket, msg: string, sha: seq<byte> -> Digest) returns (t: Turn)
    modifies sock
    ensures t == Exchange(old(sock.inbox), old(sock.resets), old(sock.room), msg, sha)
    ensures sock.outbox == old(sock.outbox) + t.sent
    ensures t.Next? ==> sock.inbox == old(sock.inbox)[t.consumed..] && sock.room == old(sock.room) - |t.sent|
    ensures sock.resets == old(sock.resets)
  {
    var room := sock.room;
    var ok := SendLine(sock, msg);
    if !ok {
      return Stop(Trunc(LineBytes(msg), room), [], Crashed(BrokenPipe));
    }
    if Lower(msg) == "exit" {
      var line := RecvLine(sock);
      if line.Broken? {
        return Stop(LineBytes(msg), [], Crashed(ConnectionReset));
      }
      return Stop(LineBytes(msg), [], Bye(line.text));
    }
    var h := RecvReply(sock, sha);
    if h.Cut? {
      return Stop(LineBytes(msg), h.shown, Crashed(ConnectionReset));
    }
    t := Next(LineBytes(msg), h.reply, h.consumed);
  }

  /** The `while True` loop of `main`: `script` is what the user types. */
  method Chat(sock: Socket, script: seq<string>, sha: seq<byte> -> Digest) returns (run: Run)
    modifies sock
    ensures run == Conversation(old(sock.inbox), old(sock.resets), old(sock.room), script, sha)
    ensures sock.outbox == old(sock.outbox) + run.sent
  {
    ghost var resets := sock.resets;
    ghost var whole := Conversation(sock.inbox, resets, sock.room, script, sha);
    var sent: seq<byte> := [];
    var replies: seq<Reply> := [];
    var i := 0;
    assert script[0..] == script;
    while true
      invariant i <= |script|
      invariant sock.outbox == old(sock.outbox) + sent && sock.resets == resets
      invariant whole == Joined(sent, replies, Conversation(sock.inbox, resets, sock.room, script[i..], sha))
      decreases |script| - i
    {
      var turn := Act(sock, script, i, sha);
      if turn.Some? {
        var t := turn.value;
        Associative(old(sock.outbox), sent, t.sent);
        if t.Stop? {
          run := Joined(sent, replies, Run(t.sent, t.shown, t.end));
          assert run == whole;
          return;
        }
        JoinedJoined(sent, replies, t.sent, [t.reply], Conversation(sock.inbox, resets, sock.room, script[i + 1..], sha));
        sent := sent + t.sent;
        replies := replies + [t.reply];
      }
      i := i + 1;
    }
  }

  /** One pass of the loop at line `i` of the input: `None` when the line is empty and
      skipped, otherwise the turn for it (or for `exit` when the input has run out). */
  method Act(sock: Socket, script: seq<string>, i: nat, sha: seq<byte> -> Digest) returns (turn: Option<Turn>)
    requires i <= |script|
    modifies sock
    ensures turn.None? ==>
      && i < |script|
      && sock.inbox == old(sock.inbox) && sock.room == old(sock.room) && sock.outbox == old(sock.outbox)
      && Conversation(old(sock.inbox), old(sock.resets), old(sock.room), script[i..], sha)
         == Conversation(sock.inbox, sock.resets, sock.room, script[i + 1..], sha)
    ensures turn.Some? ==> sock.outbox == old(sock.outbox) + turn.value.sent
    ensures turn.Some? && turn.value.Stop? ==>
      Conversation(old(sock.inbox), old(sock.resets), old(sock.room), script[i..], sha)
      == Run(turn.value.sent, turn.value.shown, turn.value.end)
    ensures turn.Some? && turn.value.Next? ==>
      && i < |script|
      && Conversation(old(sock.inbox), old(sock.resets), old(sock.room), script[i..], sha)
         == Joined(turn.value.sent, [turn.value.reply], Conversation(sock.inbox, sock.resets, sock.room, script[i + 1..], sha))
    ensures sock.resets == old(sock.resets)
  {
    ConversationStep(sock.inbox, sock.resets, sock.room, script[i..], sha);
    if i < |script| {
      assert script[i..][1..] == script[i + 1..];
    }
    var msg := if i == |script| then "exit" else Strip(script[i]);
    if msg == "" {
      return None;
    }
    var t := Say(sock, msg, sha);
    turn := Some(t);
  }

  /** The client on a stream that holds `input` and then ends or resets, `room` bytes the
      server accepts and the lines `script` the user types. */
  function ClientRun(input: seq<byte>, resets: bool, room: nat, script: seq<string>,
                     sha: seq<byte> -> Digest): Run
  {
    ReadLineFacts(input, resets);
    match ReadLine(input, resets)
    case Broken => Run([], [], Crashed(ConnectionReset))
    case Got(line, n) =>
      match ReadIntro(line)
      case Full => Run([], [], ServerFull)
      case Unexpected(l) => Run([], [], BadGreeting(l))
      case Assigned(name) => Handshake(input[n..], resets, room, name, script, sha)
  }

  /** After the greeting assigned `name`: the `NAME` answer, the welcome line and the
      loop. */
  function Handshake(input: seq<byte>, resets: bool, room: nat, name: string, script: seq<string>,
                     sha: seq<byte> -> Digest): Run
  {
    var hello := LineBytes("NAME " + name);
    if |hello| > room then Run(Trunc(hello, room), [], Crashed(BrokenPipe))
    else
      ReadLineFacts(input, resets);
      match ReadLine(input, resets)
      case Broken => Run(hello, [], Crashed(ConnectionReset))
      case Got(welcome, m) =>
        Joined(hello, [Single(welcome)], Conversation(input[m..], resets, room - |hello|, script, sha))
  }

  /** `main()` after `connect`: the greeting checks, then the rest. */
  method RunClient(sock: Socket, script: seq<string>, sha: seq<byte> -> Digest) returns (run: Run)
    modifies sock
    ensures run == ClientRun(old(sock.inbox), old(sock.resets), old(sock.room), script, sha)
    ensures sock.outbox == old(sock.outbox) + run.sent
  {
    var line := RecvLine(sock);
    if line.Broken? {
      return Run([], [], Crashed(ConnectionReset));
    }
    if line.text == "SERVER FULL" {
      return Run([], [], ServerFull);
    }
    if !StartsWith(line.text, "NAME ") {
      return Run([], [], BadGreeting(line.text));
    }
    run := Introduce(sock, line.text[5..], script, sha);
  }

  /** `send_line(sock, f'NAME {assigned}')`, the welcome line, then the loop. */
  method Introduce(sock: Socket, name: string, script: seq<string>, sha: seq<byte> -> Digest) returns (run: Run)
    modifies sock
    ensures run == Handshake(old(sock.inbox), old(sock.resets), old(sock.room), name, script, sha)
    ensures sock.outbox == old(sock.outbox) + run.sent
  {
    ghost var input, resets := sock.inbox, sock.resets;
    var room := sock.room;
    var hello := LineBytes("NAME " + name);
    var ok := SendLine(sock, "NAME " + name);
    if !ok {
      return Run(Trunc(hello, room), [], Crashed(BrokenPipe));
    }
    var welcome := RecvLine(sock);
    if welcome.Broken? {
      return Run(hello, [], Crashed(ConnectionReset));
    }
    HandshakeGot(input, resets, room, name, script, sha);
    var rest := Chat(sock, script, sha);
    Associative(old(sock.outbox), hello, rest.sent);
    run := Joined(hello, [Single(welcome.text)], rest);
  }

  /** The handshake when the `NAME` line goes through and the welcome line is read. */
  lemma HandshakeGot(input: seq<byte>, resets: bool, room: nat, name: string, script: seq<string>,
                     sha: seq<byte> -> Digest)
    ensures var hello := LineBytes("NAME " + name);
      var w := ReadLine(input, resets);
      |hello| <= room && w.Got? ==>
        && w.consumed <= |input|
        && Handshake(input, resets, room, name, script, sha)
           == Joined(hello, [Single(w.text)], Conversation(input[w.consumed..], resets, room - |hello|, script, sha))
  {
    ReadLineFacts(input, resets);
  }
}
