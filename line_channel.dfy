/** The control channel both peers use: a connected TCP socket carrying newline-terminated
    UTF-8 lines, and the two helpers `send_line` and `recv_line` built on it.

    A socket is modelled by what the peer will still deliver (`inbox`, then either a clean
    end of stream or a reset), by everything sent so far (`outbox`) and by how many more
    bytes the peer accepts before the connection breaks (`room`). A send that does not fit
    delivers the part that fits and raises, as `sendall` does on a broken pipe. */
module LineChannel {
  import opened Text

  /** The exceptions a socket operation raises. */
  datatype Fault = BrokenPipe | ConnectionReset

  /** `str(e)` of those exceptions. */
  function FaultText(f: Fault): string {
    match f
    case BrokenPipe => "[Errno 32] Broken pipe"
    case ConnectionReset => "[Errno 104] Connection reset by peer"
  }

  /** The result of one `recv(n)`: bytes (none at a clean end of stream) or a reset. */
  datatype Received = Data(bytes: seq<byte>) | Reset

  /** `s` cut to at most `r` bytes. */
  function Trunc(s: seq<byte>, r: nat): (t: seq<byte>)
    ensures |t| == Min(|s|, r) && t == s[..|t|]
  {
    if |s| <= r then s else s[..r]
  }

  /** A sender that had sent `out0` with `room0` bytes of room left, and then tried to send
      `intended`, has sent `out` and has `room` left. */
  ghost predicate Wrote(out0: seq<byte>, room0: nat, out: seq<byte>, room: nat, intended: seq<byte>) {
    out == out0 + Trunc(intended, room0) && room == room0 - |Trunc(intended, room0)|
  }

  /** Sending `x` and then `y` is sending `x + y`; both went through exactly when the
      whole did. */
  lemma WroteThen(o0: seq<byte>, r0: nat, o1: seq<byte>, r1: nat, x: seq<byte>,
                  o2: seq<byte>, r2: nat, y: seq<byte>)
    requires Wrote(o0, r0, o1, r1, x) && Wrote(o1, r1, o2, r2, y)
    ensures Wrote(o0, r0, o2, r2, x + y)
    ensures (|x| <= r0 && |y| <= r1) == (|x + y| <= r0)
  {
    if |x| <= r0 {
      assert r1 == r0 - |x| && o1 == o0 + x;
      if |y| <= r1 {
        assert Trunc(x + y, r0) == x + y;
      } else {
        assert (x + y)[..r0] == x + y[..r1];
      }
      assert Trunc(x + y, r0) == x + Trunc(y, r1);
      Associative(o0, x, Trunc(y, r1));
    } else {
      assert r1 == 0 && Trunc(y, r1) == [];
      assert (x + y)[..r0] == x[..r0];
    }
  }

  /** Once a send has failed, whatever else the sender would have sent adds nothing. */
  lemma WroteStopped(o0: seq<byte>, r0: nat, o: seq<byte>, r: nat, x: seq<byte>, y: seq<byte>)
    requires Wrote(o0, r0, o, r, x) && |x| > r0
    ensures Wrote(o0, r0, o, r, x + y) && |x + y| > r0
  {
    assert Trunc(x + y, r0) == Trunc(x, r0);
  }

  /** After a failed send there is no room left: a further send delivers nothing, and the
      sender's output is that of any intended continuation. */
  lemma WroteAfterFailure(o0: seq<byte>, r0: nat, o1: seq<byte>, r1: nat, x: seq<byte>,
                          o2: seq<byte>, r2: nat, y: seq<byte>, z: seq<byte>)
    requires Wrote(o0, r0, o1, r1, x) && |x| > r0 && Wrote(o1, r1, o2, r2, y)
    ensures o2 == o1 && r2 == 0 && (y != [] ==> |y| > r1)
    ensures Wrote(o0, r0, o2, r2, x + z) && |x + z| > r0
  {
    WroteStopped(o0, r0, o1, r1, x, z);
  }

  lemma WroteNothing(o: seq<byte>, r: nat)
    ensures Wrote(o, r, o, r, [])
  {
    assert o + Trunc([], r) == o;
  }

  class Socket {
    /** Bytes the peer has sent that are not read yet. */
    var inbox: seq<byte>
    /** Whether the peer resets the connection after `inbox` instead of closing it. */
    var resets: bool
    /** Every byte this side has sent. */
    var outbox: seq<byte>
    /** How many more bytes the peer accepts before the connection breaks. */
    var room: nat
    var closed: bool

    constructor (incoming: seq<byte>, resets: bool, room: nat)
      ensures inbox == incoming && this.resets == resets && this.room == room
      ensures outbox == [] && !closed
    {
      inbox := incoming;
      this.resets := resets;
      outbox := [];
      this.room := room;
      closed := false;
    }

    /** `recv(n)`: at most `n` bytes, as many as the network delivers at once (at least one
        while data is pending); nothing at a clean end of stream; a reset after the data. */
    method Recv(n: nat) returns (r: Received)
      modifies this
      ensures r == Reset <==> n > 0 && old(inbox) == [] && resets
      ensures r.Data? ==> |r.bytes| <= n && |r.bytes| <= |old(inbox)| && r.bytes == old(inbox)[..|r.bytes|]
      ensures r.Data? ==> inbox == old(inbox)[|r.bytes|..]
      ensures r.Data? && n > 0 && old(inbox) != [] ==> |r.bytes| >= 1
      ensures r == Reset ==> inbox == old(inbox)
      ensures outbox == old(outbox) && room == old(room) && resets == old(resets) && closed == old(closed)
    {
      if n == 0 {
        r := Data([]);
      } else if inbox == [] {
        r := if resets then Reset else Data([]);
      } else {
        var k :| 1 <= k <= n && k <= |inbox|;
        r := Data(inbox[..k]);
        inbox := inbox[k..];
      }
    }

    /** `sendall(data)`: the part of `data` that fits is delivered; it succeeds when all of
        it fits and raises a broken pipe otherwise. */
    method SendAll(data: seq<byte>) returns (ok: bool)
      modifies this
      ensures ok == (|data| <= old(room))
      ensures Wrote(old(outbox), old(room), outbox, room, data)
      ensures inbox == old(inbox) && resets == old(resets) && closed == old(closed)
    {
      ok := |data| <= room;
      var sent := Trunc(data, room);
      outbox := outbox + sent;
      room := room - |sent|;
    }

    method Close()
      modifies this
      ensures closed
      ensures inbox == old(inbox) && resets == old(resets)
      ensures outbox == old(outbox) && room == old(room)
    {
      closed := true;
    }
  }

  // ----- send_line -----

  /** The bytes `send_line(text)` puts on the wire. */
  function LineBytes(text: string): seq<byte> {
    Encode(text) + [NEWLINE]
  }

  /** `send_line(conn, text)`: `ok` is false when it raised. */
  method SendLine(conn: Socket, text: string) returns (ok: bool)
    modifies conn
    ensures ok == (|LineBytes(text)| <= old(conn.room))
    ensures Wrote(old(conn.outbox), old(conn.room), conn.outbox, conn.room, LineBytes(text))
    ensures conn.inbox == old(conn.inbox) && conn.resets == old(conn.resets) && conn.closed == old(conn.closed)
  {
    ok := conn.SendAll(LineBytes(text));
  }

  /** The bytes of sending each of `lines` with `send_line`. */
  function Lines(lines: seq<string>): seq<byte> {
    if lines == [] then [] else Lines(lines[..|lines| - 1]) + LineBytes(lines[|lines| - 1])
  }

  /** `for x in lines: send_line(conn, x)`, stopping at the first failure. */
  method SendLines(conn: Socket, lines: seq<string>) returns (ok: bool)
    modifies conn
    ensures ok == (|Lines(lines)| <= old(conn.room))
    ensures Wrote(old(conn.outbox), old(conn.room), conn.outbox, conn.room, Lines(lines))
    ensures conn.inbox == old(conn.inbox) && conn.resets == old(conn.resets) && conn.closed == old(conn.closed)
  {
    ghost var out0, room0 := conn.outbox, conn.room;
    WroteNothing(out0, room0);
    ok := true;
    var i := 0;
    while i < |lines|
      invariant 0 <= i <= |lines|
      invariant Wrote(out0, room0, conn.outbox, conn.room, Lines(lines[..i]))
      invariant |Lines(lines[..i])| <= room0
      invariant conn.inbox == old(conn.inbox) && conn.resets == old(conn.resets) && conn.closed == old(conn.closed)
    {
      ghost var o1, r1 := conn.outbox, conn.room;
      ok := SendLine(conn, lines[i]);
      TakeTake(lines, i);
      WroteThen(out0, room0, o1, r1, Lines(lines[..i]), conn.outbox, conn.room, LineBytes(lines[i]));
      if !ok {
        LinesPrefix(lines, i + 1);
        WroteStopped(out0, room0, conn.outbox, conn.room, Lines(lines[..i + 1]), LinesFrom(lines, i + 1));
        return;
      }
      i := i + 1;
    }
    TakeAll(lines);
  }

  /** The bytes of sending `lines[k..]`. */
  function LinesFrom(lines: seq<string>, k: nat): seq<byte>
    requires k <= |lines|
  {
    Lines(lines[k..])
  }

  lemma {:induction false} LinesAppend(a: seq<string>, b: seq<string>)
    ensures Lines(a + b) == Lines(a) + Lines(b)
    decreases |b|
  {
    if b == [] {
      assert a + b == a;
    } else {
      var init, last := b[..|b| - 1], b[|b| - 1];
      DropLastConcat(a, b);
      LinesAppend(a, init);
      assert Lines(a + b) == Lines(a + init) + LineBytes(last);
      assert Lines(b) == Lines(init) + LineBytes(last);
      Associative(Lines(a), Lines(init), LineBytes(last));
    }
  }

  lemma LinesPrefix(lines: seq<string>, k: nat)
    requires k <= |lines|
    ensures Lines(lines) == Lines(lines[..k]) + LinesFrom(lines, k)
  {
    LinesAppend(lines[..k], lines[k..]);
    TakeDrop(lines, k);
  }

  // ----- recv_line -----

  /** What one `recv_line` returns: a line and the bytes it took, or a reset. */
  datatype LineRead = Got(text: string, consumed: nat) | Broken

  /** The position of the first newline byte, or the length when there is none. */
  function NewlineIndex(bs: seq<byte>): (k: nat)
    ensures k <= |bs|
  {
    if bs == [] || bs[0] == NEWLINE then 0 else 1 + NewlineIndex(bs[1..])
  }

  /** The index found is the first newline, or the end when there is none. */
  lemma {:induction false} NewlineIndexFacts(bs: seq<byte>)
    ensures var k := NewlineIndex(bs);
      NEWLINE !in bs[..k] && (k < |bs| ==> bs[k] == NEWLINE)
  {
    if bs != [] && bs[0] != NEWLINE {
      NewlineIndexFacts(bs[1..]);
      var k := NewlineIndex(bs);
      assert bs[..k] == [bs[0]] + bs[1..][..k - 1];
    }
  }

  /** `recv_line` on a stream that holds `input` and then ends (or resets when `resets`):
      the bytes before the first newline, decoded and stripped. */
  function ReadLine(input: seq<byte>, resets: bool): LineRead {
    var k := NewlineIndex(input);
    if k < |input| then Got(Strip(Decode(input[..k])), k + 1)
    else if resets then Broken
    else Got(Strip(Decode(input)), |input|)
  }

  /** `recv_line(conn)`: reads one byte at a time until a newline or the end of the
      stream; a reset while reading raises. */
  method RecvLine(conn: Socket) returns (r: LineRead)
    modifies conn
    ensures r == ReadLine(old(conn.inbox), old(conn.resets))
    ensures r.Got? ==> r.consumed <= |old(conn.inbox)| && conn.inbox == old(conn.inbox)[r.consumed..]
    ensures conn.outbox == old(conn.outbox) && conn.room == old(conn.room)
    ensures conn.resets == old(conn.resets) && conn.closed == old(conn.closed)
  {
    ghost var input := conn.inbox;
    var data: seq<byte> := [];
    var consumed := 0;
    while true
      invariant |data| <= |input| && data == input[..|data|] && NEWLINE !in data
      invariant conn.inbox == input[|data|..]
      invariant conn.outbox == old(conn.outbox) && conn.room == old(conn.room)
      invariant conn.resets == old(conn.resets) && conn.closed == old(conn.closed)
      decreases |conn.inbox|
    {
      var chunk := conn.Recv(1);
      if chunk == Reset {
        assert input[..|data|] == input;
        NewlineAbsent(input);
        r := Broken;
        return;
      }
      if chunk.bytes == [] {
        assert data == input;
        consumed := |data|;
        break;
      }
      assert chunk.bytes == [input[|data|]];
      if chunk.bytes == [NEWLINE] {
        ReadLineAt(input, |data|);
        consumed := |data| + 1;
        break;
      }
      assert input[..|data| + 1] == data + chunk.bytes;
      data := data + chunk.bytes;
    }
    r := Got(Strip(Decode(data)), consumed);
    if consumed == |data| {
      NewlineAbsent(input);
    }
  }

  lemma {:induction false} NewlineAt(bs: seq<byte>, k: nat)
    requires k < |bs| && bs[k] == NEWLINE && NEWLINE !in bs[..k]
    ensures NewlineIndex(bs) == k
  {
    if k > 0 {
      assert bs[0] == bs[..k][0];
      assert bs[1..][..k - 1] == bs[1..k];
      assert bs[1..k] == bs[..k][1..];
      NewlineAt(bs[1..], k - 1);
    }
  }

  lemma NewlineAbsent(bs: seq<byte>)
    requires NEWLINE !in bs
    ensures NewlineIndex(bs) == |bs|
  {
  }

  lemma ReadLineAt(input: seq<byte>, k: nat)
    requires k < |input| && input[k] == NEWLINE && NEWLINE !in input[..k]
    ensures ReadLine(input, false) == ReadLine(input, true) == Got(Strip(Decode(input[..k])), k + 1)
  {
    NewlineAt(input, k);
  }

  /** What `recv_line` promises in both peers: the line is the stripped text before the
      first newline and never holds a newline; it takes the bytes through that newline, or
      the whole stream when there is none; an empty stream that closes gives "". */
  lemma ReadLineFacts(input: seq<byte>, resets: bool)
    ensures match ReadLine(input, resets)
      case Got(text, n) =>
        && '\n' !in text && n <= |input|
        && (NEWLINE !in input ==> n == |input| && text == Strip(Decode(input)))
        && (NEWLINE in input ==>
              n > 0 && input[n - 1] == NEWLINE && NEWLINE !in input[..n - 1]
              && text == Strip(Decode(input[..n - 1])))
      case Broken => resets && NEWLINE !in input
    ensures input == [] && !resets ==> ReadLine(input, resets) == Got("", 0)
    ensures input != [] && ReadLine(input, resets).Got? ==> ReadLine(input, resets).consumed >= 1
  {
    var k := NewlineIndex(input);
    NewlineIndexFacts(input);
    if k == |input| {
      assert input[..k] == input;
    }
    var r := ReadLine(input, resets);
    if r.Got? {
      var raw := if k < |input| then input[..k] else input;
      assert NEWLINE !in raw;
      assert '\n' !in Decode(raw);
      StripFacts(Decode(raw));
    }
  }

  /** Line framing round trip: a line sent with `send_line` is read back by `recv_line`,
      which takes exactly its bytes; ASCII text comes back stripped. */
  lemma LineRoundTrip(text: string, rest: seq<byte>, resets: bool)
    requires '\n' !in text
    ensures ReadLine(LineBytes(text) + rest, resets)
         == Got(Strip(Decode(Encode(text))), |LineBytes(text)|)
    ensures AllAscii(text) ==> ReadLine(LineBytes(text) + rest, resets) == Got(Strip(text), |LineBytes(text)|)
  {
    var bs := LineBytes(text) + rest;
    var e := Encode(text);
    EncodeFacts(text);
    assert bs[..|e|] == e;
    NewlineAt(bs, |e|);
    if AllAscii(text) {
      DecodeEncode(text);
    }
  }

  /** A line that `recv_line` reads back as it was given to `send_line`: ASCII, without a
      newline or surrounding whitespace. */
  predicate Plain(text: string) {
    '\n' !in text && AllAscii(text) && Bare(text)
  }

  /** A plain line comes back as itself, and what follows it is left unread. */
  lemma PlainRoundTrip(text: string, rest: seq<byte>, resets: bool)
    requires Plain(text)
    ensures ReadLine(LineBytes(text) + rest, resets) == Got(text, |LineBytes(text)|)
    ensures (LineBytes(text) + rest)[|LineBytes(text)|..] == rest
  {
    LineRoundTrip(text, rest, resets);
    StripUnchanged(text);
  }
}
