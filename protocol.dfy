/** The two peers together: what the handler of Server.py sends is read back by the loop
    of Client.py as the reply it stands for, and what the client sends is read by the
    handler as the line it typed. Each round trip puts one message in front of whatever
    the stream holds after it and runs the other peer's reading of it. */
module Protocol {
  import opened Text
  import opened LineChannel
  import opened FileTransfer
  import opened Registry
  import Session
  import Client

  // ----- plain lines -----

  /** A plain non-empty line after a prefix that starts with a non-space character, has
      no newline and is ASCII, is plain too. */
  lemma PlainAfter(prefix: string, x: string)
    requires prefix != [] && !IsSpace(prefix[0]) && '\n' !in prefix && AllAscii(prefix)
    requires x != [] && Plain(x)
    ensures Plain(prefix + x)
  {
    var s := prefix + x;
    assert s[|s| - 1] == x[|x| - 1];
    forall i | |prefix| <= i < |s| ensures s[i] == x[i - |prefix|] {
    }
    assert forall i :: |prefix| <= i < |s| ==> IsAscii(s[i]) && s[i] != '\n';
  }

  /** A non-empty ASCII word: no whitespace at all. */
  predicate AsciiWord(x: string) {
    x != [] && AllAscii(x) && NoSpace(x)
  }

  /** A name the server hands out is a non-empty plain word. */
  lemma ClientNameText(k: nat)
    ensures var n := ClientName(k);
      n != [] && Plain(n) && NoSpace(n)
  {
    var n := ClientName(k);
    var d := Pad2(k);
    assert n == "Client" + d;
    forall i | 0 <= i < |n| ensures IsAscii(n[i]) && !IsSpace(n[i]) {
      if i >= 6 {
        assert n[i] == d[i - 6];
      }
    }
  }

  /** The lines that frame the tables are plain. */
  lemma PlainTables()
    ensures Plain("FILES BEGIN") && Plain("FILES END") && Plain("STATUS BEGIN") && Plain("STATUS END")
  {
  }

  /** A plain line the client has no special reading for is shown as it is, and the
      client takes exactly its bytes. */
  lemma OneLineRoundTrip(x: string, rest: seq<byte>, resets: bool, sha: seq<byte> -> Digest)
    requires Plain(x)
    requires x != "STATUS BEGIN" && x != "FILES BEGIN" && !StartsWith(x, "FILE ")
    ensures Client.ReadReply(LineBytes(x) + rest, resets, sha)
         == Client.Heard(Client.Single(x), |LineBytes(x)|)
  {
    PlainRoundTrip(x, rest, resets);
  }

  // ----- the greeting -----

  /** A connection turned away: the client reads `SERVER FULL`, sends nothing and ends. */
  lemma TurnedAway(rest: seq<byte>, resets: bool, room: nat, script: seq<string>, sha: seq<byte> -> Digest)
    ensures Client.ClientRun(LineBytes("SERVER FULL") + rest, resets, room, script, sha)
         == Client.Run([], [], Client.ServerFull)
  {
    assert Plain("SERVER FULL");
    PlainRoundTrip("SERVER FULL", rest, resets);
  }

  /** An admitted connection: the client reads the `NAME` line as the name the server
      assigned and goes on after exactly that line; it answers with `NAME` and the same
      name, which the server reads back as it was sent and accepts with neither an error
      nor a warning. */
  lemma GreetingRoundTrip(k: nat, rest: seq<byte>, resets: bool, room: nat, script: seq<string>,
                          sha: seq<byte> -> Digest)
    ensures var name := ClientName(k);
      var line := "NAME " + name;
      && ReadLine(LineBytes(line) + rest, resets) == Got(line, |LineBytes(line)|)
      && Client.ReadIntro(line) == Client.Assigned(name)
      && Client.ClientRun(LineBytes(line) + rest, resets, room, script, sha)
         == Client.Handshake(rest, resets, room, name, script, sha)
      && Session.Handshake(line, name) == []
  {
    var name := ClientName(k);
    var line := "NAME " + name;
    ClientNameText(k);
    PlainAfter("NAME ", name);
    PlainRoundTrip(line, rest, resets);
    assert line[..5] == "NAME " && line[5..] == name;
    StripUnchanged(name);
    assert line != "SERVER FULL" by {
      assert line[0] == 'N';
    }
  }

  // ----- one-line replies -----

  /** `ping` is answered with `PONG`, which the client shows. */
  lemma PingRoundTrip(cmd: string, st: State, env: Session.Env, k: nat, rest: seq<byte>, resets: bool)
    requires Listed(st) && Lower(cmd) == "ping"
    ensures var reply := Session.Respond(cmd, st, env, k);
      Client.ReadReply(reply + rest, resets, env.sha) == Client.Heard(Client.Single("PONG"), |reply|)
  {
    assert Session.Respond(cmd, st, env, k) == LineBytes("PONG");
    assert Plain("PONG");
    OneLineRoundTrip("PONG", rest, resets, env.sha);
  }

  /** The `uptime` line is plain and starts with `U`. */
  lemma UptimeLineText(seconds: nat)
    ensures var line := Session.UptimeLine(seconds);
      Plain(line) && line[0] == 'U'
  {
    var d := Decimal(seconds);
    assert Plain(d + "s") by {
      var s := d + "s";
      assert forall i :: 0 <= i < |d| ==> s[i] == d[i] && IsDigit(s[i]);
    }
    PlainAfter("UPTIME ", d + "s");
    assert Session.UptimeLine(seconds) == "UPTIME " + (d + "s");
  }

  /** `uptime` is answered with the whole seconds the server had been up at that command,
      which the client shows. */
  lemma UptimeRoundTrip(cmd: string, st: State, env: Session.Env, k: nat, rest: seq<byte>, resets: bool)
    requires Listed(st) && Lower(cmd) == "uptime"
    ensures var reply := Session.Respond(cmd, st, env, k);
      Client.ReadReply(reply + rest, resets, env.sha)
      == Client.Heard(Client.Single(Session.UptimeLine(env.uptime(k))), |reply|)
  {
    var line := Session.UptimeLine(env.uptime(k));
    assert Lower(cmd)[..4][0] == 'u';
    assert Session.Respond(cmd, st, env, k) == LineBytes(line);
    UptimeLineText(env.uptime(k));
    OneLineRoundTrip(line, rest, resets, env.sha);
  }

  // ----- downloads and their errors -----

  /** A file the server has, as `send_file` streams it: the client saves its content
      under its name, the digest check passes, and it takes exactly the bytes of the reply. */
  lemma DownloadRoundTrip(name: string, files: map<string, seq<byte>>, sha: seq<byte> -> Digest,
                          rest: seq<byte>, resets: bool)
    requires Transferable(name, files)
    ensures var reply := FileReply(name, files, sha);
      var c := files[name];
      Client.ReadReply(reply + rest, resets, sha)
      == Client.Heard(Client.Download(Delivered(name, c)), |reply|)
  {
    var c := files[name];
    var h := FileHeader(name, c, sha);
    var r := Delivered(name, c);
    FileRoundTrip(name, files, sha, rest, resets);
    StoredLength(name, files, sha);
    ReadHeaderReply(FileReply(name, files, sha) + rest, resets, sha, h, |LineBytes(h)|, r);
  }

  /** The length of the reply for a stored file. */
  lemma StoredLength(name: string, files: map<string, seq<byte>>, sha: seq<byte> -> Digest)
    requires SafeName(name) && name in files
    ensures var c := files[name];
      |FileReply(name, files, sha)| == |LineBytes(FileHeader(name, c, sha))| + |c| + |LineBytes(FILE_DONE)|
  {
    StoredReply(name, files, sha, []);
  }

  /** A first line that is a file header: the client shows what `receive_file` makes of
      the stream after it, and takes the header line and what the transfer consumed,
      unless the transfer was cut off. */
  lemma ReadHeaderReply(stream: seq<byte>, resets: bool, sha: seq<byte> -> Digest, h: string, n: nat, r: Receipt)
    requires ReadLine(stream, resets) == Got(h, n) && StartsWith(h, "FILE ")
    requires n <= |stream| && ReceiveSpec(h, stream[n..], resets, sha) == r
    ensures Client.ReadReply(stream, resets, sha)
         == (if r.Interrupted? then Client.Cut([Client.Download(r)])
             else Client.Heard(Client.Download(r), n + (if r.Saved? then r.consumed else 0)))
  {
    HeaderNotTable(h);
  }

  /** A line that starts with `FILE ` opens neither table. */
  lemma HeaderNotTable(h: string)
    requires StartsWith(h, "FILE ")
    ensures h != "STATUS BEGIN" && h != "FILES BEGIN"
  {
    assert h[..5] == "FILE ";
    assert h != "STATUS BEGIN" by {
      assert h[0] == 'F';
    }
    assert h != "FILES BEGIN" by {
      assert h[4] == ' ';
    }
  }

  /** `get` keeps the name as typed after the verb, and strips it. */
  lemma GetReply(verb: string, name: string, st: State, env: Session.Env, k: nat)
    requires Listed(st) && |verb| == 4 && Lower(verb) == "get "
    requires name != [] && NoSpace(name)
    ensures Session.Respond(verb + name, st, env, k) == FileReply(name, env.files, env.sha)
  {
    Session.GetKeepsCase(verb, name, st, env, k);
    StripUnchanged(name);
  }

  /** `get <name>`, the verb in any case, of a file the server has: the client saves the
      file under the name as typed, the digest check passes, and it takes exactly the bytes
      of the reply. */
  lemma GetRoundTrip(verb: string, name: string, st: State, env: Session.Env, k: nat,
                     rest: seq<byte>, resets: bool)
    requires Listed(st) && |verb| == 4 && Lower(verb) == "get "
    requires Transferable(name, env.files)
    ensures var reply := Session.Respond(verb + name, st, env, k);
      var c := env.files[name];
      Client.ReadReply(reply + rest, resets, env.sha)
      == Client.Heard(Client.Download(Delivered(name, c)), |reply|)
  {
    GetReply(verb, name, st, env, k);
    DownloadRoundTrip(name, env.files, env.sha, rest, resets);
  }

  /** A name `safe_name` rejects: the client shows `FILEERR invalid-name` and takes only
      that line. */
  lemma InvalidNameRoundTrip(name: string, files: map<string, seq<byte>>, sha: seq<byte> -> Digest,
                             rest: seq<byte>, resets: bool)
    requires !SafeName(name)
    ensures var reply := FileReply(name, files, sha);
      Client.ReadReply(reply + rest, resets, sha)
      == Client.Heard(Client.Single("FILEERR invalid-name"), |reply|)
  {
    var line := "FILEERR invalid-name";
    FileReplyCases(name, files, sha);
    InvalidNameLine();
    OneLineRoundTrip(line, rest, resets, sha);
  }

  lemma InvalidNameLine()
    ensures Plain("FILEERR invalid-name") && !StartsWith("FILEERR invalid-name", "FILE ")
  {
    var line := "FILEERR invalid-name";
    assert line[..5][4] == 'E';
  }

  /** A safe name the server does not have: the client shows the `FILEERR not-found` line
      with the name, and takes only that line. */
  lemma NotFoundRoundTrip(name: string, files: map<string, seq<byte>>, sha: seq<byte> -> Digest,
                          rest: seq<byte>, resets: bool)
    requires SafeName(name) && name !in files
    requires name != [] && Plain(name)
    ensures var reply := FileReply(name, files, sha);
      Client.ReadReply(reply + rest, resets, sha)
      == Client.Heard(Client.Single("FILEERR not-found " + name), |reply|)
  {
    var line := "FILEERR not-found " + name;
    FileReplyCases(name, files, sha);
    PlainAfter("FILEERR not-found ", name);
    assert line[4] == 'E';
    OneLineRoundTrip(line, rest, resets, sha);
  }

  // ----- tables -----

  /** A table as the handler sends it, a title line, its rows and an end line: the client
      reads the title, then every row up to the end line, and takes exactly the bytes of
      the table. */
  lemma TableRoundTrip(title: string, rows: seq<string>, end: string, rest: seq<byte>, resets: bool)
    requires Plain(title) && Client.EndLine(end)
    requires forall i :: 0 <= i < |rows| ==> Client.TableLine(rows[i], end)
    ensures var t := Lines([title] + rows + [end]);
      var n := |LineBytes(title)|;
      && n <= |t|
      && ReadLine(t + rest, resets) == Got(title, n)
      && Client.ReadBlock((t + rest)[n..], resets, end) == Client.Block(rows, |t| - n)
  {
    var body := Lines(rows + [end]);
    TitleFirst(title, rows, end);
    Associative(LineBytes(title), body, rest);
    PlainRoundTrip(title, body + rest, resets);
    Client.BlockRoundTrip(rows, end, rest, resets);
  }

  /** The bytes of a table are its title line followed by the bytes of the rest. */
  lemma TitleFirst(title: string, rows: seq<string>, end: string)
    ensures Lines([title] + rows + [end]) == LineBytes(title) + Lines(rows + [end])
  {
    assert [title] + rows + [end] == [title] + (rows + [end]);
    LinesAppend([title], rows + [end]);
    assert Lines([title]) == LineBytes(title);
  }

  /** A stream that starts with `FILES BEGIN` and then holds a table: the client shows
      the table's lines as the file listing. */
  lemma FollowFiles(input: seq<byte>, resets: bool, sha: seq<byte> -> Digest, n: nat, rows: seq<string>, m: nat)
    requires n <= |input| && ReadLine(input, resets) == Got("FILES BEGIN", n)
    requires Client.ReadBlock(input[n..], resets, "FILES END") == Client.Block(rows, m)
    ensures Client.ReadReply(input, resets, sha) == Client.Heard(Client.Files(rows), n + m)
  {
  }

  /** A stream that starts with `STATUS BEGIN` and then holds a table: the client shows
      the table's lines as the status table. */
  lemma FollowStatus(input: seq<byte>, resets: bool, sha: seq<byte> -> Digest, n: nat, rows: seq<string>, m: nat)
    requires n <= |input| && ReadLine(input, resets) == Got("STATUS BEGIN", n)
    requires Client.ReadBlock(input[n..], resets, "STATUS END") == Client.Block(rows, m)
    ensures Client.ReadReply(input, resets, sha) == Client.Heard(Client.Status(rows), n + m)
  {
  }

  /** The lines of a `list` reply, read by the client: the listing, and exactly the bytes
      of the reply. */
  lemma FilesReply(rows: seq<string>, rest: seq<byte>, resets: bool, sha: seq<byte> -> Digest)
    requires forall i :: 0 <= i < |rows| ==> Client.TableLine(rows[i], "FILES END")
    ensures var t := Lines(Session.FilesLines(rows));
      Client.ReadReply(t + rest, resets, sha) == Client.Heard(Client.Files(rows), |t|)
  {
    PlainTables();
    var t := Lines(["FILES BEGIN"] + rows + ["FILES END"]);
    TableRoundTrip("FILES BEGIN", rows, "FILES END", rest, resets);
    var n := |LineBytes("FILES BEGIN")|;
    FollowFiles(t + rest, resets, sha, n, rows, |t| - n);
  }

  /** The lines of a `status` reply, read by the client: the title row and the rows, and
      exactly the bytes of the reply. */
  lemma StatusReply(rows: seq<string>, rest: seq<byte>, resets: bool, sha: seq<byte> -> Digest)
    requires forall i :: 0 <= i < |rows| ==> Client.TableLine(rows[i], "STATUS END")
    ensures var t := Lines(["STATUS BEGIN"] + rows + ["STATUS END"]);
      Client.ReadReply(t + rest, resets, sha) == Client.Heard(Client.Status(rows), |t|)
  {
    PlainTables();
    var t := Lines(["STATUS BEGIN"] + rows + ["STATUS END"]);
    TableRoundTrip("STATUS BEGIN", rows, "STATUS END", rest, resets);
    var n := |LineBytes("STATUS BEGIN")|;
    FollowStatus(t + rest, resets, sha, n, rows, |t| - n);
  }

  /** `list`: the client shows exactly the names `list_files()` gave, as long as each is
      a plain line other than `FILES END`, and takes exactly the bytes of the reply. */
  lemma ListRoundTrip(cmd: string, st: State, env: Session.Env, k: nat, rest: seq<byte>, resets: bool)
    requires Listed(st) && Lower(cmd) == "list"
    requires forall i :: 0 <= i < |env.listing| ==> Client.TableLine(env.listing[i], "FILES END")
    ensures var reply := Session.Respond(cmd, st, env, k);
      Client.ReadReply(reply + rest, resets, env.sha) == Client.Heard(Client.Files(env.listing), |reply|)
  {
    assert Session.Respond(cmd, st, env, k) == Lines(Session.FilesLines(env.listing));
    FilesReply(env.listing, rest, resets, env.sha);
  }

  /** `status`: the client shows the title row and then one row per client ever
      registered, in the order they registered, as long as each row is a plain line, and
      takes exactly the bytes of the reply. */
  lemma StatusRoundTrip(cmd: string, st: State, env: Session.Env, k: nat, rest: seq<byte>, resets: bool)
    requires Listed(st) && Lower(cmd) == "status"
    requires var rows := [StatusTitle()] + StatusRows(st);
      forall i :: 0 <= i < |rows| ==> Client.TableLine(rows[i], "STATUS END")
    ensures var reply := Session.Respond(cmd, st, env, k);
      Client.ReadReply(reply + rest, resets, env.sha)
      == Client.Heard(Client.Status([StatusTitle()] + StatusRows(st)), |reply|)
  {
    var rows := [StatusTitle()] + StatusRows(st);
    assert StatusLines(st) == ["STATUS BEGIN"] + rows + ["STATUS END"];
    assert Session.Respond(cmd, st, env, k) == Lines(StatusLines(st));
    StatusReply(rows, rest, resets, env.sha);
  }

  /** Text with no newline, all ASCII: what a timestamp from `now_iso()` is. */
  predicate LineText(t: string) {
    '\n' !in t && AllAscii(t)
  }

  /** A `cache` entry whose fields print as protocol text: ASCII timestamps, and an
      address that is a non-empty plain line, as `str(addr)` of a peer address is. */
  predicate EntryText(e: Entry) {
    LineText(e.accepted) && LineText(FinishedText(e.finished)) && e.addr != [] && Plain(e.addr)
  }

  lemma LineTextAppend(x: string, y: string)
    requires LineText(x) && LineText(y)
    ensures LineText(x + y)
  {
    assert forall i :: |x| <= i < |x + y| ==> (x + y)[i] == y[i - |x|];
  }

  lemma PadText(x: string, w: nat)
    requires LineText(x)
    ensures LineText(PadRight(x, w))
  {
    var r := PadRight(x, w);
    assert forall i :: 0 <= i < |x| ==> r[i] == r[..|x|][i] == x[i];
  }

  /** A status row of a name starting with `C` and printable fields is a line the client
      reads back as itself and does not take for the end of the table. */
  lemma StatusRowText(c: string, a: string, f: string, addr: string)
    requires c != [] && c[0] == 'C' && LineText(c) && LineText(a) && LineText(f)
    requires addr != [] && Plain(addr)
    ensures Client.TableLine(StatusRow(c, a, f, addr), "STATUS END")
  {
    var pc, pa, pf := PadRight(c, 10), PadRight(a, 19), PadRight(f, 19);
    PadText(c, 10); PadText(a, 19); PadText(f, 19);
    LineTextAppend(pc, " ");
    LineTextAppend(pc + " ", pa);
    LineTextAppend(pc + " " + pa, " ");
    LineTextAppend(pc + " " + pa + " ", pf);
    var p := pc + " " + pa + " " + pf;
    LineTextAppend(p, " ");
    assert pc[..|c|] == c;
    assert (p + " ")[0] == pc[0] == c[0];
    PlainAfter(p + " ", addr);
    assert StatusRow(c, a, f, addr) == p + " " + addr;
    assert StatusRow(c, a, f, addr)[0] == 'C';
  }

  /** The row of a server-issued name and a printable entry reads back as itself. */
  lemma EntryRowText(k: nat, e: Entry)
    requires EntryText(e)
    ensures Client.TableLine(EntryRow(ClientName(k), e), "STATUS END")
  {
    var n := ClientName(k);
    ClientNameText(k);
    assert n[0] == ("Client" + Pad2(k))[0] == 'C';
    StatusRowText(n, e.accepted, FinishedText(e.finished), e.addr);
  }

  /** The title row reads back as itself. */
  lemma TitleText()
    ensures Client.TableLine(StatusTitle(), "STATUS END")
  {
    assert Plain("ADDR") && LineText("CLIENT") && LineText("ACCEPTED") && LineText("FINISHED");
    StatusRowText("CLIENT", "ACCEPTED", "FINISHED", "ADDR");
  }

  /** Every row of `status` reads back as itself when every entry prints as protocol
      text. */
  lemma RowsText(st: State)
    requires Invariant(st) && forall n :: n in st.cache ==> EntryText(st.cache[n])
    ensures forall i :: 0 <= i < |StatusRows(st)| ==> Client.TableLine(StatusRows(st)[i], "STATUS END")
  {
    var body := StatusRows(st);
    forall i | 0 <= i < |body| ensures Client.TableLine(body[i], "STATUS END") {
      var n := st.order[i];
      assert body[i] == EntryRow(n, st.cache[n]) && n == ClientName(i + 1);
      EntryRowText(i + 1, st.cache[n]);
    }
  }

  /** The title and every row of `status` read back as themselves when every entry
      prints as protocol text. */
  lemma StatusRowsText(st: State)
    requires Invariant(st) && forall n :: n in st.cache ==> EntryText(st.cache[n])
    ensures var rows := [StatusTitle()] + StatusRows(st);
      forall i :: 0 <= i < |rows| ==> Client.TableLine(rows[i], "STATUS END")
  {
    var body := StatusRows(st);
    var rows := [StatusTitle()] + body;
    TitleText();
    RowsText(st);
    assert forall i :: 1 <= i < |rows| ==> rows[i] == body[i - 1];
  }

  /** `status` on a registry whose entries print as protocol text: the client shows the
      title row and one row per client ever registered, in registration order. */
  lemma StatusRoundTripText(cmd: string, st: State, env: Session.Env, k: nat, rest: seq<byte>, resets: bool)
    requires Invariant(st) && Lower(cmd) == "status"
    requires forall n :: n in st.cache ==> EntryText(st.cache[n])
    ensures var reply := Session.Respond(cmd, st, env, k);
      Client.ReadReply(reply + rest, resets, env.sha)
      == Client.Heard(Client.Status([StatusTitle()] + StatusRows(st)), |reply|)
  {
    StatusRowsText(st);
    StatusRoundTrip(cmd, st, env, k, rest, resets);
  }

  // ----- echoes and the end of a session -----

  /** A command no branch of the handler takes is echoed with ` ACK`, and the client shows
      the echo, unless the echo starts with `FILE `. */
  lemma AckRoundTrip(cmd: string, st: State, env: Session.Env, k: nat, rest: seq<byte>, resets: bool)
    requires Listed(st)
    requires cmd != [] && '\n' !in cmd && AllAscii(cmd) && !IsSpace(cmd[0])
    requires var v := Lower(cmd);
      v != "status" && v != "list" && !StartsWith(v, "get ") && v != "help" && v != "who"
      && v != "ping" && v != "uptime" && v != "about"
    requires !(SafeName(cmd) && cmd in env.files)
    requires !StartsWith(cmd + " ACK", "FILE ")
    ensures var reply := Session.Respond(cmd, st, env, k);
      Client.ReadReply(reply + rest, resets, env.sha) == Client.Heard(Client.Single(cmd + " ACK"), |reply|)
  {
    var line := cmd + " ACK";
    assert Session.Respond(cmd, st, env, k) == LineBytes(line);
    assert Plain(line) by {
      assert line[|line| - 1] == 'K';
      forall i | 0 <= i < |line| ensures IsAscii(line[i]) && line[i] != '\n' {
        if i < |cmd| {
          assert line[i] == cmd[i];
        }
      }
    }
    assert line[|line| - 1] == 'K';
    OneLineRoundTrip(line, rest, resets, env.sha);
  }

  /** A command that looks like a file header, `FILE <name> <n> <word>`, and is not the
      name of a file takes no branch of the handler and is echoed. */
  lemma LookalikeEcho(name: string, n: nat, d: string, st: State, env: Session.Env, k: nat)
    requires Listed(st) && Spaced("FILE", name, Decimal(n), d) !in env.files
    ensures var cmd := Spaced("FILE", name, Decimal(n), d);
      Session.Respond(cmd, st, env, k) == LineBytes(cmd + " ACK")
  {
    var cmd := Spaced("FILE", name, Decimal(n), d);
    assert cmd[0] == 'F';
    assert Lower(cmd)[0] == 'f';
    Session.EchoByFirstLetter(cmd, st, env, k);
  }

  /** The echo of such a command splits into `FILE`, the name, the size and the rest. */
  lemma LookalikeSplit(name: string, n: nat, d: string)
    requires name != [] && d != [] && NoSpace(name) && NoSpace(d)
    ensures Split(Spaced("FILE", name, Decimal(n), d) + " ACK", 3) == ["FILE", name, Decimal(n), d + " ACK"]
  {
    var c := Decimal(n);
    DecimalText(n);
    var digest := d + " ACK";
    Nest("FILE", " ", name, c, d, " ACK");
    assert digest[0] == d[0];
    SplitRest(digest);
    SplitField(c, digest, 0);
    SplitField(name, c + " " + digest, 1);
    SplitField("FILE", name + " " + (c + " " + digest), 2);
  }

  lemma Nest<T>(a: seq<T>, s: seq<T>, b: seq<T>, c: seq<T>, d: seq<T>, e: seq<T>)
    ensures a + s + b + s + c + s + d + e == a + s + (b + s + (c + s + (d + e)))
  {
  }

  /** No digest holds a space. */
  lemma NotADigest(g: Digest, d: string)
    ensures g != d + " ACK"
  {
    assert (d + " ACK")[|d|] == ' ' && !IsHex(' ');
  }

  /** The echo of such a command, taken for a header: name `<name>`, size `n`, and digest
      `<word> ACK`, which no digest equals, as it holds a space. */
  lemma LookalikeHeader(name: string, n: nat, d: string, rest: seq<byte>, resets: bool, sha: seq<byte> -> Digest)
    requires name != [] && d != [] && NoSpace(name) && NoSpace(d)
    requires |Decimal(n)| <= MAX_STR_DIGITS
    ensures var echo := Spaced("FILE", name, Decimal(n), d) + " ACK";
      var r := ReceiveSpec(echo, rest, resets, sha);
      && r == Payload(name, d + " ACK", n, rest, resets, sha)
      && (r.Saved? ==> !r.verified)
  {
    var echo := Spaced("FILE", name, Decimal(n), d) + " ACK";
    LookalikeSplit(name, n, d);
    ParseDecimal(n);
    ReceiveFacts(echo, rest, resets, sha);
    var r := Payload(name, d + " ACK", n, rest, resets, sha);
    PayloadFacts(name, d + " ACK", n, rest, resets, sha);
    if r.Saved? {
      NotADigest(sha(r.data), d);
    }
  }

  /** The echo of a command that looks like a file header is read as a header: the client
      takes what follows the echo, up to the size the command gave, for the content of a
      file with the name the command gave, then a line for the trailer, and the digest
      check fails. */
  lemma AckLooksLikeFile(name: string, n: nat, d: string, st: State, env: Session.Env, k: nat,
                         rest: seq<byte>, resets: bool)
    requires Listed(st) && Spaced("FILE", name, Decimal(n), d) !in env.files
    requires AsciiWord(name) && AsciiWord(d) && |Decimal(n)| <= MAX_STR_DIGITS
    ensures var cmd := Spaced("FILE", name, Decimal(n), d);
      var reply := Session.Respond(cmd, st, env, k);
      var r := Payload(name, d + " ACK", n, rest, resets, env.sha);
      && reply == LineBytes(cmd + " ACK")
      && r.name == name && r.data == rest[..Min(n, |rest|)]
      && (r.Saved? ==> !r.verified)
      && Client.ReadReply(reply + rest, resets, env.sha)
         == (if r.Interrupted? then Client.Cut([Client.Download(r)])
             else Client.Heard(Client.Download(r), |reply| + r.consumed))
  {
    var echo := Spaced("FILE", name, Decimal(n), d) + " ACK";
    var r := Payload(name, d + " ACK", n, rest, resets, env.sha);
    LookalikeEcho(name, n, d, st, env, k);
    LookalikeHeader(name, n, d, rest, resets, env.sha);
    EchoText(name, n, d);
    PlainRoundTrip(echo, rest, resets);
    PayloadFacts(name, d + " ACK", n, rest, resets, env.sha);
    ReadHeaderReply(LineBytes(echo) + rest, resets, env.sha, echo, |LineBytes(echo)|, r);
  }

  /** With a size of more than `MAX_STR_DIGITS` digits the echo is still taken for a
      header, but `int()` refuses the size: the client reports an invalid size and reads
      nothing after the echo. */
  lemma AckLongSize(name: string, n: nat, d: string, st: State, env: Session.Env, k: nat,
                    rest: seq<byte>, resets: bool)
    requires Listed(st) && Spaced("FILE", name, Decimal(n), d) !in env.files
    requires AsciiWord(name) && AsciiWord(d) && |Decimal(n)| > MAX_STR_DIGITS
    ensures var cmd := Spaced("FILE", name, Decimal(n), d);
      var reply := Session.Respond(cmd, st, env, k);
      && reply == LineBytes(cmd + " ACK")
      && Client.ReadReply(reply + rest, resets, env.sha) == Client.Heard(Client.Download(BadSize), |reply|)
  {
    var echo := Spaced("FILE", name, Decimal(n), d) + " ACK";
    LookalikeEcho(name, n, d, st, env, k);
    LookalikeSplit(name, n, d);
    DecimalText(n);
    ParseTooManyDigits(Decimal(n));
    ReceiveFacts(echo, rest, resets, env.sha);
    EchoText(name, n, d);
    PlainRoundTrip(echo, rest, resets);
    ReadHeaderReply(LineBytes(echo) + rest, resets, env.sha, echo, |LineBytes(echo)|, BadSize);
  }

  /** Such an echo is a plain line that starts with `FILE `. */
  lemma EchoText(name: string, n: nat, d: string)
    requires AsciiWord(name) && AsciiWord(d)
    ensures var echo := Spaced("FILE", name, Decimal(n), d) + " ACK";
      Plain(echo) && StartsWith(echo, "FILE ") && echo != "STATUS BEGIN" && echo != "FILES BEGIN"
  {
    var cmd := Spaced("FILE", name, Decimal(n), d);
    var echo := cmd + " ACK";
    DecimalText(n);
    SpacedFields("FILE", name, Decimal(n), d);
    assert Plain(cmd) by {
      StripFacts(cmd);
      assert cmd[0] == 'F';
    }
    assert echo[|echo| - 1] == 'K' && echo[0] == 'F' && echo[4] == ' ';
    assert echo[..5] == cmd[..5];
    forall i | 0 <= i < |echo| ensures IsAscii(echo[i]) && echo[i] != '\n' {
      if i < |cmd| {
        assert echo[i] == cmd[i];
      }
    }
  }

  /** `exit`, in any case: the handler says `BYE` and ends the session, and the client,
      having sent the line, reads `BYE` and ends. */
  lemma ExitRoundTrip(msg: string, st: State, env: Session.Env, k: nat, rest: seq<byte>, resets: bool,
                      after: seq<byte>, resets2: bool, room: nat)
    requires Listed(st) && Plain(msg) && Lower(msg) == "exit" && |LineBytes(msg)| <= room
    ensures Session.Commands(LineBytes(msg) + rest, resets, st, env, k) == Session.Talk(LineBytes("BYE"), false)
    ensures Client.Exchange(LineBytes("BYE") + after, resets2, room, msg, env.sha)
         == Client.Stop(LineBytes(msg), [], Client.Bye("BYE"))
  {
    PlainRoundTrip(msg, rest, resets);
    StripUnchanged(msg);
    assert Plain("BYE");
    PlainRoundTrip("BYE", after, resets2);
  }
}
