/** The file-transfer codec: the server's `safe_name` and `send_file` (Server.py) and the
    client's `receive_file` (Client.py).

    The server's repository is a map from the names of its regular files to their bytes,
    and SHA-256 is a parameter `sha` from bytes to a 64-character lower-case hex digest. */
module FileTransfer {
  import opened Text
  import opened LineChannel

  /** The chunk size both peers read and write with. */
  const BUFF_SIZE: nat := 4096

  predicate IsHex(c: char) { '0' <= c <= '9' || 'a' <= c <= 'f' }

  predicate AllHex(s: string) { forall i :: 0 <= i < |s| ==> IsHex(s[i]) }

  /** What `hexdigest()` of a SHA-256 returns. */
  type Digest = s: string | |s| == 64 && AllHex(s) witness Zeros(64)

  function Zeros(n: nat): (s: string)
    ensures |s| == n && AllHex(s)
  {
    if n == 0 then [] else "0" + Zeros(n - 1)
  }

  // ----- server side -----

  /** `safe_name`: the name holds no `..`, does not start with `/` and holds neither `/`
      nor a backslash. */
  predicate SafeName(name: string) {
    !(Contains(name, "..") || StartsWith(name, "/") || '/' in name || '\\' in name)
  }

  /** The leading-slash test adds nothing to the slash test, and the empty name passes. */
  lemma SafeNameExactly(name: string)
    ensures SafeName(name) <==> !Contains(name, "..") && '/' !in name && '\\' !in name
    ensures SafeName("")
  {
    if StartsWith(name, "/") {
      assert name[0] == '/';
    }
    assert !Contains("", "..");
  }

  /** The pieces `iter(lambda: f.read(BUFF_SIZE), b'')` yields for a file holding
      `content`: full chunks and then a shorter, non-empty last one. */
  function Chunks(content: seq<byte>): (cs: seq<seq<byte>>)
    ensures Flatten(cs) == content
    ensures forall i :: 0 <= i < |cs| ==> 1 <= |cs[i]| <= BUFF_SIZE
    ensures forall i :: 0 <= i < |cs| - 1 ==> |cs[i]| == BUFF_SIZE
    decreases |content|
  {
    if |content| <= BUFF_SIZE then
      if content == [] then [] else assert Flatten([content]) == Flatten([]) + content; [content]
    else
      var rest := Chunks(content[BUFF_SIZE..]);
      FlattenCons(content[..BUFF_SIZE], rest);
      assert content[..BUFF_SIZE] + content[BUFF_SIZE..] == content;
      [content[..BUFF_SIZE]] + rest
  }

  /** Four fields joined by single spaces. */
  function Spaced(a: string, b: string, c: string, d: string): string {
    a + " " + b + " " + c + " " + d
  }

  /** The header line `FILE <name> <size> <digest>` of a transfer. */
  function HeaderLine(name: string, size: nat, digest: Digest): string {
    Spaced("FILE", name, Decimal(size), digest)
  }

  function FileHeader(name: string, content: seq<byte>, sha: seq<byte> -> Digest): string {
    HeaderLine(name, |content|, sha(content))
  }

  const FILE_DONE := "FILE DONE"

  /** Everything `send_file(conn, name)` sends when no send fails. */
  function FileReply(name: string, files: map<string, seq<byte>>, sha: seq<byte> -> Digest): seq<byte> {
    if !SafeName(name) then LineBytes("FILEERR invalid-name")
    else if name !in files then LineBytes("FILEERR not-found " + name)
    else LineBytes(FileHeader(name, files[name], sha)) + files[name] + LineBytes(FILE_DONE)
  }

  /** The name is checked before the store: a rejected name sends one error line and
      neither a header nor file bytes; an accepted one sends the header, the content and
      the trailer, in that order. */
  lemma FileReplyCases(name: string, files: map<string, seq<byte>>, sha: seq<byte> -> Digest)
    ensures !SafeName(name) ==> FileReply(name, files, sha) == LineBytes("FILEERR invalid-name")
    ensures SafeName(name) && name !in files ==>
      FileReply(name, files, sha) == LineBytes("FILEERR not-found " + name)
    ensures SafeName(name) && name in files ==>
      var c := files[name];
      var h := LineBytes(FileHeader(name, c, sha));
      var r := FileReply(name, files, sha);
      && |r| == |h| + |c| + |LineBytes(FILE_DONE)|
      && r[..|h|] == h && r[|h|..|h| + |c|] == c && r[|h| + |c|..] == LineBytes(FILE_DONE)
  {
  }

  /** `send_file(conn, name)`: the digest is computed over the chunks of the file before
      anything is sent; then the header, the chunks and the trailer go out. `ok` is false
      when a send raised; the `FILEERR` line the handler then tries delivers nothing, and
      the error reaches the caller. */
  method SendFile(conn: Socket, name: string, files: map<string, seq<byte>>, sha: seq<byte> -> Digest)
    returns (ok: bool)
    modifies conn
    ensures ok == (|FileReply(name, files, sha)| <= old(conn.room))
    ensures Wrote(old(conn.outbox), old(conn.room), conn.outbox, conn.room, FileReply(name, files, sha))
    ensures conn.inbox == old(conn.inbox) && conn.resets == old(conn.resets) && conn.closed == old(conn.closed)
  {
    if !SafeName(name) {
      ok := SendLine(conn, "FILEERR invalid-name");
      return;
    }
    if name !in files {
      ok := SendLine(conn, "FILEERR not-found " + name);
      return;
    }
    ok := SendStored(conn, name, files[name], sha);
  }

  /** The `try` block of `send_file` for a stored file: hash, header, chunks, trailer. */
  method SendStored(conn: Socket, name: string, content: seq<byte>, sha: seq<byte> -> Digest)
    returns (ok: bool)
    modifies conn
    ensures ok == (|LineBytes(FileHeader(name, content, sha)) + content + LineBytes(FILE_DONE)| <= old(conn.room))
    ensures Wrote(old(conn.outbox), old(conn.room), conn.outbox, conn.room,
                  LineBytes(FileHeader(name, content, sha)) + content + LineBytes(FILE_DONE))
    ensures conn.inbox == old(conn.inbox) && conn.resets == old(conn.resets) && conn.closed == old(conn.closed)
  {
    var chunks := Chunks(content);
    var digest := HashChunks(chunks, sha);
    var header := HeaderLine(name, |content|, digest);
    ok := SendFramed(conn, header, chunks, FILE_DONE);
  }

  /** A header line, the chunks and a trailer line, stopping at the first send that
      raises. */
  method SendFramed(conn: Socket, header: string, chunks: seq<seq<byte>>, trailer: string)
    returns (ok: bool)
    modifies conn
    ensures ok == (|LineBytes(header) + Flatten(chunks) + LineBytes(trailer)| <= old(conn.room))
    ensures Wrote(old(conn.outbox), old(conn.room), conn.outbox, conn.room,
                  LineBytes(header) + Flatten(chunks) + LineBytes(trailer))
    ensures conn.inbox == old(conn.inbox) && conn.resets == old(conn.resets) && conn.closed == old(conn.closed)
  {
    ghost var content := Flatten(chunks);
    ghost var h := LineBytes(header);
    ghost var o0, r0 := conn.outbox, conn.room;
    ok := SendLine(conn, header);
    if !ok {
      Fail(conn, o0, r0, h, content + LineBytes(trailer));
      assert h + (content + LineBytes(trailer)) == h + content + LineBytes(trailer);
      return;
    }
    ghost var o1, r1 := conn.outbox, conn.room;
    ok := StreamChunks(conn, chunks);
    WroteThen(o0, r0, o1, r1, h, conn.outbox, conn.room, content);
    if !ok {
      Fail(conn, o0, r0, h + content, LineBytes(trailer));
      return;
    }
    ghost var o2, r2 := conn.outbox, conn.room;
    ok := SendLine(conn, trailer);
    WroteThen(o0, r0, o2, r2, h + content, conn.outbox, conn.room, LineBytes(trailer));
  }

  /** The first pass of `send_file`: every chunk is fed to the hash object, whose
      `hexdigest()` is then the digest of the whole file. */
  method HashChunks(chunks: seq<seq<byte>>, sha: seq<byte> -> Digest) returns (digest: Digest)
    ensures digest == sha(Flatten(chunks))
  {
    var fed: seq<byte> := [];
    var i := 0;
    while i < |chunks|
      invariant 0 <= i <= |chunks| && fed == Flatten(chunks[..i])
    {
      TakeTake(chunks, i);
      fed := fed + chunks[i];
      i := i + 1;
    }
    TakeAll(chunks);
    digest := sha(fed);
  }

  /** The second pass of `send_file`: `sendall` of each chunk, stopping at the first that
      raises. */
  method StreamChunks(conn: Socket, chunks: seq<seq<byte>>) returns (ok: bool)
    modifies conn
    ensures ok == (|Flatten(chunks)| <= old(conn.room))
    ensures Wrote(old(conn.outbox), old(conn.room), conn.outbox, conn.room, Flatten(chunks))
    ensures conn.inbox == old(conn.inbox) && conn.resets == old(conn.resets) && conn.closed == old(conn.closed)
  {
    ghost var o0, r0 := conn.outbox, conn.room;
    WroteNothing(o0, r0);
    ok := true;
    var i := 0;
    while i < |chunks|
      invariant 0 <= i <= |chunks|
      invariant Wrote(o0, r0, conn.outbox, conn.room, Flatten(chunks[..i]))
      invariant |Flatten(chunks[..i])| <= r0
      invariant conn.inbox == old(conn.inbox) && conn.resets == old(conn.resets) && conn.closed == old(conn.closed)
    {
      ghost var o1, r1 := conn.outbox, conn.room;
      ok := conn.SendAll(chunks[i]);
      TakeTake(chunks, i);
      WroteThen(o0, r0, o1, r1, Flatten(chunks[..i]), conn.outbox, conn.room, chunks[i]);
      if !ok {
        FlattenAll(chunks, i + 1);
        WroteStopped(o0, r0, conn.outbox, conn.room, Flatten(chunks[..i + 1]), Flatten(chunks[i + 1..]));
        return;
      }
      i := i + 1;
    }
    TakeAll(chunks);
  }

  /** The handler's `except` branch after a failed send: it tries a `FILEERR` line, which
      delivers nothing, so the output is what was cut at the failed send. */
  method Fail(conn: Socket, ghost o0: seq<byte>, ghost r0: nat, ghost done: seq<byte>, ghost rest: seq<byte>)
    requires Wrote(o0, r0, conn.outbox, conn.room, done) && |done| > r0
    modifies conn
    ensures Wrote(o0, r0, conn.outbox, conn.room, done + rest)
    ensures conn.outbox == old(conn.outbox) && conn.room == old(conn.room) && conn.room == 0
    ensures conn.inbox == old(conn.inbox) && conn.resets == old(conn.resets) && conn.closed == old(conn.closed)
  {
    ghost var o1, r1 := conn.outbox, conn.room;
    var sent := SendLine(conn, "FILEERR " + FaultText(BrokenPipe));
    WroteAfterFailure(o0, r0, o1, r1, done, conn.outbox, conn.room, LineBytes("FILEERR " + FaultText(BrokenPipe)), rest);
  }

  // ----- client side -----

  /** How `receive_file(sock, header)` ends. `Interrupted` is a reset while reading, which
      propagates out of the client; the bytes it had written stay in the file. */
  datatype Receipt =
    | BadHeader
    | BadSize
    | Interrupted(name: string, data: seq<byte>)
    | Saved(name: string, data: seq<byte>, verified: bool, consumed: nat)

  /** `receive_file` on a stream that holds `input` and then ends (or resets): the header
      splits into four fields, the third an integer size, and the payload is read. */
  function ReceiveSpec(header: string, input: seq<byte>, resets: bool, sha: seq<byte> -> Digest): (r: Receipt)
    ensures r.Saved? ==> r.consumed <= |input|
  {
    var parts := Split(header, 3);
    if |parts| != 4 then BadHeader
    else match ParseInt(parts[2])
      case None => BadSize
      case Some(size) => Payload(parts[1], parts[3], size, input, resets, sha)
  }

  /** The payload stage of `receive_file`: at most `size` bytes are written, then one
      trailer line is read, and the verdict compares the digest of the written bytes with
      the header's. */
  function Payload(name: string, digest: string, size: int, input: seq<byte>, resets: bool,
                   sha: seq<byte> -> Digest): (r: Receipt)
    ensures r.Saved? ==> r.consumed <= |input|
  {
    var want := if size < 0 then 0 else size;
    var got := Min(want, |input|);
    ReadLineFacts(input[got..], resets);
    if got < want && resets then Interrupted(name, input[..got])
    else match ReadLine(input[got..], resets)
      case Broken => Interrupted(name, input[..got])
      case Got(_, n) => Saved(name, input[..got], sha(input[..got]) == digest, got + n)
  }

  /** What `receive_file` promises: a header without four fields or without an integer
      size is rejected; otherwise what is written is a prefix of the stream of at most
      `size` bytes, all of them when the stream holds that many and fewer only when it
      ended early; then exactly one line is read; and the verdict is whether the digest of
      what was written equals the header's. */
  lemma ReceiveFacts(header: string, input: seq<byte>, resets: bool, sha: seq<byte> -> Digest)
    ensures var r := ReceiveSpec(header, input, resets, sha);
      && (r.BadHeader? <==> |Split(header, 3)| != 4)
      && (r.BadSize? <==> |Split(header, 3)| == 4 && ParseInt(Split(header, 3)[2]).None?)
      && (!r.BadHeader? && !r.BadSize? ==>
            var parts := Split(header, 3);
            r == Payload(parts[1], parts[3], ParseInt(parts[2]).value, input, resets, sha))
  {
  }

  lemma PayloadFacts(name: string, digest: string, size: int, input: seq<byte>, resets: bool,
                     sha: seq<byte> -> Digest)
    ensures var r := Payload(name, digest, size, input, resets, sha);
      var want := if size < 0 then 0 else size;
      && (r.Saved? || r.Interrupted?)
      && r.name == name
      && |r.data| <= |input| && r.data == input[..|r.data|] && |r.data| <= want
      && (|input| >= want ==> |r.data| == want)
      && (r.Interrupted? ==> resets)
      && (r.Saved? ==>
            && (r.verified <==> sha(r.data) == digest)
            && (|r.data| < want ==> |r.data| == |input| && !resets)
            && ReadLine(input[|r.data|..], resets).Got?
            && r.consumed == |r.data| + ReadLine(input[|r.data|..], resets).consumed)
  {
    var want := if size < 0 then 0 else size;
    var got := Min(want, |input|);
    ReadLineFacts(input[got..], resets);
  }

  /** `receive_file(sock, header)`: the header is parsed before anything is read. */
  method ReceiveFile(sock: Socket, header: string, sha: seq<byte> -> Digest) returns (r: Receipt)
    modifies sock
    ensures r == ReceiveSpec(header, old(sock.inbox), old(sock.resets), sha)
    ensures r.Saved? ==> r.consumed <= |old(sock.inbox)| && sock.inbox == old(sock.inbox)[r.consumed..]
    ensures r.BadHeader? || r.BadSize? ==> sock.inbox == old(sock.inbox)
    ensures sock.outbox == old(sock.outbox) && sock.room == old(sock.room)
    ensures sock.resets == old(sock.resets) && sock.closed == old(sock.closed)
  {
    var parts := Split(header, 3);
    if |parts| != 4 {
      return BadHeader;
    }
    var parsed := ParseInt(parts[2]);
    if parsed.None? {
      return BadSize;
    }
    r := ReceivePayload(sock, parts[1], parts[3], parsed.value, sha);
  }

  /** The payload loop of `receive_file`: `recv(min(BUFF_SIZE, remaining))` until
      `remaining` is used up or the stream ends, each chunk written and fed to the hash;
      then the trailer line. */
  method ReceivePayload(sock: Socket, name: string, digest: string, size: int, sha: seq<byte> -> Digest)
    returns (r: Receipt)
    modifies sock
    ensures r == Payload(name, digest, size, old(sock.inbox), old(sock.resets), sha)
    ensures r.Saved? ==> r.consumed <= |old(sock.inbox)| && sock.inbox == old(sock.inbox)[r.consumed..]
    ensures sock.outbox == old(sock.outbox) && sock.room == old(sock.room)
    ensures sock.resets == old(sock.resets) && sock.closed == old(sock.closed)
  {
    ghost var input := sock.inbox;
    ghost var want := if size < 0 then 0 else size;
    var remaining := size;
    var written: seq<byte> := [];
    while remaining > 0
      invariant |written| <= |input| && written == input[..|written|]
      invariant sock.inbox == input[|written|..]
      invariant remaining > 0 ==> |written| + remaining == size
      invariant remaining <= 0 ==> |written| == want
      invariant sock.outbox == old(sock.outbox) && sock.room == old(sock.room)
      invariant sock.resets == old(sock.resets) && sock.closed == old(sock.closed)
      decreases remaining
    {
      var chunk := sock.Recv(Min(BUFF_SIZE, remaining));
      if chunk == Reset {
        assert |written| == |input| && |written| < want;
        return Interrupted(name, written);
      }
      if chunk.bytes == [] {
        assert |written| == |input|;
        break;
      }
      assert input[..|written| + |chunk.bytes|] == written + chunk.bytes;
      written := written + chunk.bytes;
      remaining := remaining - |chunk.bytes|;
    }
    assert |written| == Min(want, |input|);
    var hashed := sha(written);
    var trailer := RecvLine(sock);
    if trailer == Broken {
      return Interrupted(name, written);
    }
    r := Saved(name, written, hashed == digest, |written| + trailer.consumed);
  }

  // ----- the round trip -----

  /** A digest is a non-empty word of ASCII characters. */
  lemma DigestText(g: Digest)
    ensures g != [] && NoSpace(g) && AllAscii(g)
  {
    forall i | 0 <= i < |g| ensures !IsSpace(g[i]) && IsAscii(g[i]) {
      assert IsHex(g[i]);
    }
  }

  lemma NoSpaceNoNewline(s: string)
    requires NoSpace(s)
    ensures '\n' !in s
  {
    forall i | 0 <= i < |s| ensures s[i] != '\n' {
      assert !IsSpace(s[i]);
    }
  }

  /** Four non-empty ASCII words joined by single spaces form a line that `strip` leaves
      alone and that `split(maxsplit=3)` takes apart again. */
  lemma SpacedFields(a: string, b: string, c: string, d: string)
    requires a != [] && b != [] && c != [] && d != []
    requires NoSpace(a) && NoSpace(b) && NoSpace(c) && NoSpace(d)
    requires AllAscii(a) && AllAscii(b) && AllAscii(c) && AllAscii(d)
    ensures var h := Spaced(a, b, c, d);
      && AllAscii(h) && '\n' !in h && Strip(h) == h && StartsWith(h, a + " ")
      && Split(h, 3) == [a, b, c, d]
  {
    var h := Spaced(a, b, c, d);
    SplitFour(a, b, c, d);
    assert h[0] == a[0] && h[|h| - 1] == d[|d| - 1];
    StripUnchanged(h);
    NoSpaceNoNewline(a);
    NoSpaceNoNewline(b);
    NoSpaceNoNewline(c);
    NoSpaceNoNewline(d);
    assert h[..|a + " "|] == a + " ";
  }

  /** A decimal numeral is a non-empty ASCII word. */
  lemma DecimalText(n: nat)
    ensures NoSpace(Decimal(n)) && AllAscii(Decimal(n))
  {
    var d := Decimal(n);
    forall i | 0 <= i < |d| ensures !IsSpace(d[i]) && IsAscii(d[i]) {
      assert IsDigit(d[i]);
    }
  }

  /** The header line of a name that is a non-empty ASCII word is one line of ASCII text,
      unchanged by `strip`, starting with `FILE `, whose four-way split gives back the
      name, the size and the digest. */
  lemma HeaderLineText(name: string, size: nat, digest: Digest)
    requires name != [] && AllAscii(name) && NoSpace(name)
    ensures var h := HeaderLine(name, size, digest);
      && AllAscii(h) && '\n' !in h && Strip(h) == h && StartsWith(h, "FILE ")
      && Split(h, 3) == ["FILE", name, Decimal(size), digest]
  {
    DigestText(digest);
    DecimalText(size);
    var kw := "FILE";
    assert NoSpace(kw) && AllAscii(kw);
    SpacedFields(kw, name, Decimal(size), digest);
    assert kw + " " == "FILE ";
  }

  /** The receipt of a complete transfer of `c`: saved, verified, and the content and the
      trailer line consumed. */
  function Delivered(name: string, c: seq<byte>): Receipt {
    Saved(name, c, true, |c| + |LineBytes(FILE_DONE)|)
  }

  /** The payload stage on a stream that holds exactly `size` bytes of content and then a
      line: it saves the content and consumes the content and that line. */
  lemma PayloadRoundTrip(name: string, digest: string, c: seq<byte>, trailer: string,
                         rest: seq<byte>, resets: bool, sha: seq<byte> -> Digest)
    requires '\n' !in trailer
    ensures Payload(name, digest, |c|, c + LineBytes(trailer) + rest, resets, sha)
         == Saved(name, c, sha(c) == digest, |c| + |LineBytes(trailer)|)
  {
    var tail := LineBytes(trailer) + rest;
    var input := c + LineBytes(trailer) + rest;
    assert input == c + tail;
    TakeConcat(c, tail);
    assert Min(|c|, |input|) == |c|;
    LineRoundTrip(trailer, rest, resets);
    assert ReadLine(input[|c|..], resets).Got? && ReadLine(input[|c|..], resets).consumed == |LineBytes(trailer)|;
  }

  /** The reply for a stored file, split at the end of its header line. */
  lemma StoredReply(name: string, files: map<string, seq<byte>>, sha: seq<byte> -> Digest, rest: seq<byte>)
    requires SafeName(name) && name in files
    ensures FileReply(name, files, sha) + rest
         == LineBytes(FileHeader(name, files[name], sha)) + (files[name] + LineBytes(FILE_DONE) + rest)
  {
  }

  /** `receive_file` given the header of a file and a stream holding the content, the
      trailer and anything after it saves the content and verifies it. */
  lemma ReceiveStored(name: string, c: seq<byte>, sha: seq<byte> -> Digest, rest: seq<byte>, resets: bool)
    requires name != [] && AllAscii(name) && NoSpace(name)
    requires |Decimal(|c|)| <= MAX_STR_DIGITS
    ensures ReceiveSpec(FileHeader(name, c, sha), c + LineBytes(FILE_DONE) + rest, resets, sha)
         == Delivered(name, c)
  {
    HeaderLineText(name, |c|, sha(c));
    ParseDecimal(|c|);
    PayloadRoundTrip(name, sha(c), c, FILE_DONE, rest, resets, sha);
  }

  /** A stored file `safe_name` accepts whose name is a non-empty ASCII word, so that the
      header carries it intact, and whose size `int()` converts. */
  predicate Transferable(name: string, files: map<string, seq<byte>>) {
    && name != [] && AllAscii(name) && NoSpace(name) && SafeName(name) && name in files
    && |Decimal(|files[name]|)| <= MAX_STR_DIGITS
  }

  /** Round trip of a transfer: what `send_file` sends for a stored file whose name is
      non-empty ASCII without whitespace is read by the client's `recv_line` as a header
      starting with `FILE `, and `receive_file` then saves exactly the file's content,
      verifies its digest and consumes exactly the rest of the reply. */
  lemma FileRoundTrip(name: string, files: map<string, seq<byte>>, sha: seq<byte> -> Digest,
                      rest: seq<byte>, resets: bool)
    requires Transferable(name, files)
    ensures var stream := FileReply(name, files, sha) + rest;
      var h := FileHeader(name, files[name], sha);
      && ReadLine(stream, resets) == Got(h, |LineBytes(h)|)
      && StartsWith(h, "FILE ")
      && ReceiveSpec(h, stream[|LineBytes(h)|..], resets, sha)
         == Delivered(name, files[name])
  {
    var c := files[name];
    var h := FileHeader(name, c, sha);
    var body := c + LineBytes(FILE_DONE) + rest;
    StoredReply(name, files, sha, rest);
    HeaderLineText(name, |c|, sha(c));
    LineRoundTrip(h, body, resets);
    TakeConcat(LineBytes(h), body);
    ReceiveStored(name, c, sha, rest, resets);
  }

  /** With a space inside the name, the four-way split of a header takes the part of the
      name after the space for the size field. */
  lemma SplitSpacedName(kw: string, x: string, y: string, d: string, g: string)
    requires kw != [] && x != [] && y != [] && d != [] && g != []
    requires NoSpace(kw) && NoSpace(x) && NoSpace(y) && NoSpace(d)
    ensures Split(Spaced(kw, x + " " + y, d, g), 3) == [kw, x, y, d + " " + g]
  {
    var tail := d + " " + g;
    assert Spaced(kw, x + " " + y, d, g) == kw + " " + (x + " " + (y + " " + tail));
    assert tail[0] == d[0];
    SplitRest(tail);
    SplitField(y, tail, 0);
    SplitField(x, y + " " + tail, 1);
    SplitField(kw, x + " " + (y + " " + tail), 2);
  }

  /** A name with a space breaks the round trip: the header's four-way split takes the
      part after the space for the size, which is not a number. */
  lemma SpacedNameBreaksHeader(sha: seq<byte> -> Digest)
    ensures ReceiveSpec(FileHeader("a b", [], sha), [], false, sha) == BadSize
  {
    var g := sha([]);
    DigestText(g);
    DecimalText(0);
    var kw, x, y := "FILE", "a", "b";
    assert NoSpace(kw) && NoSpace(x) && NoSpace(y);
    assert "a b" == x + " " + y;
    SplitSpacedName(kw, x, y, Decimal(0), g);
    assert Strip(y) == y;
  }
}
