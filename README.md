# A verified model of the CP372 file-streaming server and client

This project models the protocol between `Server.py` and `Client.py`. The server is a
multi-client TCP server. It admits at most three connections at a time, names each
client, answers a `NAME` handshake and then answers one command per line. Those
commands are `status`, `list`, `get <file>`, a bare file name, `help`, `who`, `ping`,
`uptime`, `about` and `exit`. The client reads the greeting and answers the handshake.
It sends the lines the user types. For each reply it lets the first line decide how much
more to read: a table, a file transfer with a SHA-256 check, or nothing.

The model is organised in these modules:

- `Text`: Python's string operations on the protocol's text.
  - `strip`, `lower`, `split(maxsplit=3)` and `int()`;
  - the formats `:02d` and `:<w`, and `sorted` on names;
  - UTF-8 encoding, and decoding with `errors='replace'`.
- `LineChannel`: the socket and `send_line` / `recv_line`.
  - A `Socket` object holds what the peer will still deliver (`inbox`, then a clean end
    or a reset), what has been sent (`outbox`) and how many more bytes the peer accepts
    (`room`).
  - A send that does not fit delivers the part that fits and raises, as `sendall` does
    on a broken pipe. `Wrote` ties what went out to what was meant to go out.
- `FileTransfer`: the two ends of a file transfer.
  - `safe_name` and `send_file` (hash pass, header, 4096-byte chunks, trailer);
  - `receive_file` (header parse, the `remaining` loop, the trailer line, the verdict).
- `Registry`: the state that `state_lock` guards.
  - That state is `client_counter`, the insertion-ordered `cache` and `active_clients`.
  - A `Registry` object has one method per lock region.
  - The `status` and `who` replies are built from its snapshot.
- `Admission`: the counting semaphore.
- `Session`: `handle_client`.
  - Pure functions (`Respond`, `Commands`, `Greeting`, `Transcript`) say what the handler
    sends for given client bytes.
  - The handler's methods are proved to send exactly that, cut at the first failed send.
  - Cleanup always runs.
- `Server`: the accept loop of `serve_forever`, as a `Server` object. It holds the
  semaphore, the registry and the running handlers.
- `Client`: `main` of the client, driven by a script of typed lines.
  - Pure functions (`ReadIntro`, `ReadBlock`, `ReadReply`, `Conversation`, `ClientRun`)
    say what the client sends, shows and saves.
  - The methods are proved to do exactly that.
- `Protocol`: both peers together. What the handler sends for a command is read back by
  the client as the reply it stands for, consuming exactly the reply's bytes.

SHA-256 is a parameter `sha: seq<byte> -> Digest`, where a `Digest` is 64 lower-case hex
characters. The repository directory is a map from file names to contents. What
`list_files()` returns is an opaque list of names. Timestamps and the peer address are
opaque strings. `uptime` is a parameter giving whole seconds for the k-th command of a
session.

## Model

| member | source | states |
|---|---|---|
| Text.EncodeFacts | Server.py:57 | `.encode('utf-8')` of ASCII text is one byte per character, with that character's code; the encoding holds a newline byte exactly when the text holds `'\n'` |
| Text.DecodeEncode | Server.py:67 | decoding with `errors='replace'` gives back any ASCII text that was encoded |
| Text.StripFacts | Server.py:67 | `.strip()` leaves no whitespace at either end and keeps only characters of the input |
| Text.StripIdempotent | Server.py:143 | stripping a line that `recv_line` already stripped changes nothing |
| Text.PadRight | Server.py:154-156 | `f"{s:<w}"` has length `max(|s|, w)`, starts with `s` and is filled with spaces |
| Text.DecimalValue | Server.py:99 | `str(n)` of a size is digits whose value is `n` |
| Text.ParseDecimal | Client.py:42 | `int()` of `str(n)` gives back `n` when `str(n)` has at most 4300 digits |
| Text.ParseDigits | Client.py:42 | `int()` of a string of 1 to 4300 digits is the value those digits denote |
| Text.ParseTooManyDigits | Client.py:42-44 | `int()` refuses a digit string longer than the default `sys.get_int_max_str_digits()` of 4300, so the header counts as having an invalid size |
| Text.Pad2Value | Server.py:119 | `f"{k:02d}"` is digits whose value is `k` |
| Text.Pad2Injective | Server.py:119 | different counters give different `:02d` texts |
| Text.SplitFour | Client.py:37 | `split(maxsplit=3)` of four space-separated words without whitespace gives exactly those four words |
| Text.SortedNamesSorted | Server.py:175 | `sorted(active_clients)` holds each member of the set once and is strictly increasing in Python's string order |
| Text.Least | Server.py:175 | one pass over a non-empty set of names finds the name below every other |
| Text.SortNames | Server.py:175 | `sorted(active_clients)` by repeated selection: each member once, strictly increasing, and equal to the reference `SortedNames` |
| Text.BelowTotal | Server.py:175 | any two different names are ordered one way or the other, so the sort is determined |
| LineChannel.Socket.constructor | Server.py:218 | a new connection has sent nothing and is open |
| LineChannel.Socket.Recv | Client.py:51 | `recv(n)` gives at most `n` bytes, a prefix of what the peer still sends, at least one byte when any is left and `n > 0`; it gives none at a clean end and raises on a reset |
| LineChannel.Socket.SendAll | Server.py:57 | `sendall` succeeds exactly when the data fits the room left; otherwise only the part that fits goes out |
| LineChannel.Socket.Close | Server.py:202 | closing changes nothing but the closed flag |
| LineChannel.SendLine | Server.py:55-57 | sends the text's UTF-8 bytes and one newline, and reports whether all of it went out; the client's `send_line` (Client.py:21-22) is the same operation |
| LineChannel.SendLines | Server.py:161-164 | sending the lines one after the other sends their concatenation, and stops at the first failure |
| LineChannel.WroteThen | Server.py:57 | two sends in a row are one send of the concatenation; both went through exactly when the whole fits |
| LineChannel.WroteAfterFailure | Server.py:196-199 | after a failed send no room is left: a best-effort `ERR` line delivers nothing |
| LineChannel.RecvLine | Server.py:59-67 | reads byte by byte up to the first newline or the end of the stream, consumes exactly those bytes, and returns the stripped decoded line; the client's `recv_line` (Client.py:24-33) is the same operation |
| LineChannel.ReadLineFacts | Client.py:24-33 | the line never holds `'\n'`; with a newline in the stream it consumes up to and including the first one and is the stripped decoding of the bytes before it; without one a clean end gives the whole stream, stripped and decoded, and a reset raises; an empty ended stream gives `""`; a non-empty stream always makes progress |
| LineChannel.LineRoundTrip | Server.py:55-67 | a line `send_line` sends, followed by anything, is read back by `recv_line` as itself stripped, consuming exactly its bytes |
| LineChannel.PlainRoundTrip | Client.py:24-33 | a line without newline or surrounding whitespace is read back unchanged, and the reader stops right after it |
| FileTransfer.SafeNameExactly | Server.py:75-78 | a name is refused exactly when it holds `..`, `/` or `\`; the leading-`/` test adds nothing; `""` is accepted |
| FileTransfer.Chunks | Server.py:102-104 | the chunks concatenate to the content, each holds 1 to 4096 bytes, and all but the last hold 4096 |
| FileTransfer.FileReplyCases | Server.py:82-106 | an unsafe name gets only `FILEERR invalid-name`; a safe missing name gets only `FILEERR not-found <name>`; a stored file gets exactly its header line, its content and `FILE DONE` |
| FileTransfer.SendFile | Server.py:80-109 | `send_file` sends exactly that reply, cut at the first failed send; the name is checked before existence |
| FileTransfer.SendStored | Server.py:89-106 | the header carries the file's size and the digest of its content, computed before anything is sent, then come the content and the trailer |
| FileTransfer.SendFramed | Server.py:99-106 | header, chunks and trailer go out in that order, stopping at the first failure |
| FileTransfer.HashChunks | Server.py:92-96 | feeding every chunk to the hash gives the digest of the whole content |
| FileTransfer.StreamChunks | Server.py:102-104 | `sendall` of every chunk sends their concatenation, stopping at the first failure |
| FileTransfer.Fail | Server.py:108-109 | the `FILEERR` line tried after a failed send delivers nothing |
| FileTransfer.HeaderLineText | Server.py:99 | the header of a non-empty ASCII name without whitespace is plain ASCII, starts with `FILE ` and splits back into `FILE`, the name, the size and the digest |
| FileTransfer.ReceiveFacts | Client.py:37-44 | a header without four fields is rejected, then one whose size field is not an integer; otherwise the payload is read with the header's name, size and digest |
| FileTransfer.PayloadFacts | Client.py:47-60 | at most `size` bytes are written, a prefix of the stream; they are all `size` when the stream holds that many, fewer only at an early end; then exactly one trailer line is read; the verdict is PASS exactly when the digest of what was written equals the header's |
| FileTransfer.ReceiveFile | Client.py:35-60 | `receive_file` does what `ReceiveSpec` says; a rejected header reads nothing |
| FileTransfer.ReceivePayload | Client.py:46-58 | the `remaining` loop asks for `min(4096, remaining)` bytes each time and ends as `Payload` says, consuming exactly the bytes it reports |
| FileTransfer.PayloadRoundTrip | Client.py:47-58 | on a stream that holds exactly `size` content bytes and then a line, the content is saved whole and the trailer line is consumed |
| FileTransfer.ReceiveStored | Client.py:35-60 | the header of a stored file whose name is an ASCII word and whose size has at most 4300 digits, followed by its content and `FILE DONE`, saves the content with verdict PASS |
| FileTransfer.FileRoundTrip | Server.py:99-106 | for a stored file whose name is a non-empty ASCII word without whitespace and whose size has at most 4300 digits, the client reads the header back as a `FILE ` line, then saves exactly the content with verdict PASS and consumes the whole reply |
| FileTransfer.SplitSpacedName | Client.py:37 | with a space in the name, the four-way split takes the part after the space as the size |
| FileTransfer.SpacedNameBreaksHeader | Client.py:40-44 | so the header of the file `a b` is rejected as having an invalid size: the whitespace condition of the round trip is needed |
| Registry.ClientNameInjective | Server.py:119 | different counter values give different client names |
| Registry.InitialInvariant | Server.py:42-45 | the empty state keeps the registry invariant |
| Registry.NamesDistinct | Server.py:117-121 | names in the cache are pairwise different, and the next name is not among them: names are never reused |
| Registry.RegisteredFacts | Server.py:117-121 | registration adds one to the counter and names the client `Client` and the counter's `:02d` text; the new entry has no finish time and is active; every older entry is unchanged |
| Registry.FinishedFacts | Server.py:203-207 | cleanup removes the name from the active set and sets its finish time; the entry is kept; no other entry, the key order or the counter changes |
| Registry.SessionFacts | Server.py:117-207 | over a whole session the counter goes up by one, the active set is as before, and the cache gains one finished entry |
| Registry.SessionCache | Server.py:117-207 | a session's cleanup stamps exactly the entry its own registration created: the cache ends as before plus that one entry, now finished |
| Registry.StatusRowsFacts | Server.py:150-156 | `status` has one row per client ever registered, in registration order, each showing that client's entry |
| Registry.WhoFacts | Server.py:174-176 | `who` shows `<none>` exactly when no client is active; otherwise it shows each active name once, in increasing order |
| Registry.Registry.constructor | Server.py:42-45 | the registry starts with counter 0, an empty cache and no active client |
| Registry.Registry.Register | Server.py:117-121 | one lock region: the state becomes `Registered(old state)` and the returned name is fresh |
| Registry.Registry.Finish | Server.py:203-207 | one lock region: the state becomes `Finished(old state, name)` |
| Registry.Registry.CollectRows | Server.py:150-152 | the comprehension over `cache.items()` gives one row per entry, in insertion order |
| Registry.Registry.StatusSnapshot | Server.py:150-157 | `status` sends `counter + 3` lines: `STATUS BEGIN`, the title row, then for the i-th client registered (`Client` and the `:02d` text of i) the row of its entry, then `STATUS END` |
| Registry.Registry.WhoSnapshot | Server.py:174-176 | the `who` line is `WHO <none>` exactly when no client is active; otherwise it joins the active names as `Text.SortNames` orders them |
| Admission.Semaphore.constructor | Server.py:46 | the semaphore starts with `MAX_CLIENTS` slots |
| Admission.Semaphore.TryAcquire | Server.py:220 | a non-blocking acquire succeeds exactly when a slot is free and then takes one; otherwise nothing changes |
| Admission.Semaphore.Release | Server.py:208 | a release returns one slot |
| Session.CommandsOverLines | Server.py:139-193 | on a stream of lines the client sent, the byte-level command loop answers each stripped line as `Replies` does: an empty line ends it silently, `exit` ends it with `BYE`; it sees a reset only when the lines run out and the stream resets |
| Session.GetKeepsCase | Server.py:166-168 | `get` is matched in any case, but the file name keeps its case: it is the command as typed after four characters, stripped |
| Session.EchoByFirstLetter | Server.py:187-193 | a command whose lower-cased first letter starts no verb, and which is not a safe stored file name, is echoed with ` ACK` |
| Session.Dispatch | Server.py:145-193 | one command gets the reply `Respond` gives, tried on the lower-cased line in the handler's order, cut at a failed send |
| Session.Turn | Server.py:140-193 | one pass of the loop reads a line and either ends the loop or answers it and makes progress on the stream |
| Session.Converse | Server.py:139-193 | the loop sends what `Commands` gives for the client's bytes and reports a reset or a broken pipe exactly when one happened |
| Session.Answer | Server.py:127-133 | the handshake answer: `ERR expected NAME <clientName>` for an empty line or one without `NAME `; `WARN name-mismatch, using <name>` when the claimed name differs; nothing otherwise |
| Session.Greet | Server.py:127-193 | after the `NAME` line: the handshake answer, always the `WELCOME <name> \| SERVER v1.2` line, then the command loop |
| Session.Welcome | Server.py:136-193 | the welcome line carries the server-assigned name and comes before any reply |
| Session.Serve | Server.py:124-193 | the `try` block sends `NAME <name>` first and then what `Greeting` gives |
| Session.Attempt | Server.py:115-200 | the whole try/except: what goes out is `Transcript`, including the `ERR` line after a reset, cut at the first failed send |
| Session.HandleClient | Server.py:111-209 | the handler registers the client, sends the session's transcript, and on every exit path closes the connection, records the finish and releases exactly one slot |
| Server.Server.constructor | Server.py:37-46 | the server starts with `MAX_CLIENTS` free slots, no handler running and an empty registry |
| Server.Server.Accept | Server.py:217-229 | with a free slot the connection gets a handler and takes the slot; without one it gets only `SERVER FULL` and a close, no handler is started and the registry is unchanged; free slots plus running handlers stay `MAX_CLIENTS` |
| Server.Server.RunHandler | Server.py:201-208 | a finished handler frees its slot and leaves the running set, with the registry as the session left it |
| Client.ReadIntro | Client.py:68-76 | exactly `SERVER FULL` turns the client away; otherwise a line without the `NAME ` prefix is unexpected and shown as it is, and one with it assigns the name: everything after the first space |
| Client.BlockRoundTrip | Client.py:104-120 | a table of lines that are not empty and not the end line, followed by its end line, is read as exactly those lines, consuming exactly its bytes |
| Client.ReadBlockStep | Client.py:106-110 | the inner loop stops at the end line or an empty line, and otherwise shows the line and goes on with the rest |
| Client.RecvBlock | Client.py:106-110 | the read-until-END loop does what `ReadBlock` says and consumes what it reports |
| Client.RecvTableLine | Client.py:107-109 | one line of a table, and whether it ends the table |
| Client.RecvReply | Client.py:102-127 | the first line decides: `STATUS BEGIN` or `FILES BEGIN` reads a table, a `FILE ` line runs `receive_file`, anything else is one line; it consumes what `ReadReply` reports |
| Client.RecvFollow | Client.py:104-127 | what is read after the first line, as `Follow` says |
| Client.Exchange | Client.py:95-127 | a turn that goes on has sent exactly the typed line, fit the room and was not `exit`; a send that failed delivered the part of the line that fit |
| Client.ConversationStep | Client.py:86-127 | an empty typed line is skipped; a turn that stops ends the run; a turn that goes on adds its bytes and its reply to the rest of the run |
| Client.Say | Client.py:95-127 | one turn sends the line and reads as `Exchange` says |
| Client.Chat | Client.py:86-127 | the loop over the script does what `Conversation` says, and the bytes sent are the run's |
| Client.Act | Client.py:87-127 | one pass of the loop: skip an empty line, or run a turn |
| Client.RunClient | Client.py:62-127 | the client does what `ClientRun` says: greeting check, handshake, welcome line, loop |
| Client.Introduce | Client.py:76-83 | after the greeting the client sends `NAME <assigned>` and shows the welcome line |
| Client.HandshakeGot | Client.py:79-83 | when the `NAME` line fits, the run is that line, the welcome line shown, then the loop on the rest |
| Protocol.ClientNameText | Server.py:119 | every name the server hands out is a non-empty ASCII word |
| Protocol.OneLineRoundTrip | Client.py:125-127 | a plain line other than a table start or `FILE ` header is shown as one line, consuming exactly its bytes |
| Protocol.TurnedAway | Client.py:68-71 | a client turned away with `SERVER FULL` sends nothing and ends |
| Protocol.GreetingRoundTrip | Server.py:124-133 | the client reads the `NAME` line as the name the server assigned; its answer is read back as that name and draws neither an error nor a warning |
| Protocol.PingRoundTrip | Server.py:178-179 | `ping`, in any case, is answered `PONG`, which the client shows as one line |
| Protocol.UptimeRoundTrip | Server.py:181-182 | `uptime` is answered `UPTIME <n>s`, which the client shows as one line |
| Protocol.DownloadRoundTrip | Server.py:80-106 | the reply for a stored file whose name is a non-empty ASCII word without whitespace, and whose size has at most 4300 digits, is read as a complete, verified download of exactly that content, consuming the whole reply |
| Protocol.ReadHeaderReply | Client.py:122-123 | a `FILE ` first line hands the rest of the stream to `receive_file` and consumes what it consumed |
| Protocol.GetReply | Server.py:166-168 | `get <name>`, the verb in any case, sends what `send_file(name)` sends |
| Protocol.GetRoundTrip | Server.py:166-168 | `get <name>` of a stored file whose name is a non-empty ASCII word without whitespace, and whose size has at most 4300 digits, saves that file, verified, under the name as typed |
| Protocol.InvalidNameRoundTrip | Server.py:82-84 | an unsafe name is shown as the single line `FILEERR invalid-name` |
| Protocol.NotFoundRoundTrip | Server.py:86-88 | a missing safe name that is a non-empty plain line (no newline, no surrounding whitespace, as `get`'s strip leaves it) is shown as the single line `FILEERR not-found <name>` |
| Protocol.TableRoundTrip | Client.py:104-120 | a title line, rows and an end line are read back as the title and exactly the rows |
| Protocol.ListRoundTrip | Server.py:159-164 | `list` is shown as exactly the listing, provided no listed name is empty, is `FILES END` or has surrounding whitespace |
| Protocol.StatusRoundTrip | Server.py:149-157 | `status` is shown as the title row and one row per cache entry, in insertion order, when every row reads back as itself |
| Protocol.StatusRowText | Server.py:154-156 | a row whose name starts with `C`, whose timestamps are ASCII without newline and whose address is a non-empty plain line reads back as itself and is not `STATUS END` |
| Protocol.EntryRowText | Server.py:156 | so does the row of any server-issued name with a printable entry |
| Protocol.StatusRowsText | Server.py:149-157 | the title and every row read back as themselves when every cache entry is printable |
| Protocol.StatusRoundTripText | Server.py:149-157 | `status` on a valid registry with printable entries is shown as the title row and one row per client ever registered, in registration order |
| Protocol.AckRoundTrip | Server.py:187-193 | a command that matches no verb and no safe stored file, and whose echo does not start with `FILE `, is shown as `<cmd> ACK` |
| Protocol.LookalikeEcho | Server.py:187-193 | a command of the form `FILE <name> <n> <word>` that names no file is echoed |
| Protocol.LookalikeHeader | Client.py:37-44 | when `n` has at most 4300 digits, the client takes that echo for a file header of size `n` whose digest field `<word> ACK` no digest equals |
| Protocol.AckLooksLikeFile | Client.py:122-123 | when `n` has at most 4300 digits, the echo of such a command is read as a file transfer: the next `n` bytes after it become the content of `<name>`, a further line is taken as the trailer, and the check fails |
| Protocol.AckLongSize | Client.py:42-44 | when `n` has more than 4300 digits, the echo of such a command is read as a header with an invalid size, and nothing after it is read |
| Protocol.ExitRoundTrip | Server.py:145-147 | `exit` in any case ends the handler's loop with `BYE`, and the client, having sent it, reads `BYE` and ends |

## Left out

- Threads and `state_lock`: each lock region and each semaphore step is one atomic
  method, and a running handler is run to its end as one step. Interleavings are not
  modelled.
- Sockets, `bind`, `listen`, `accept` and `connect` are not modelled. A connection is a
  `Socket` object built from the bytes the peer will send. `ConnectionRefusedError` is left
  out because the client model starts connected.
- SHA-256 is the `sha` parameter. The file system is a map from names to contents.
  - `os.path.isfile`, `getsize` and `open` are lookups in that map.
  - The `downloads/` file is the `data` of the `Receipt`. The model does not capture that
    a later download of the same name overwrites it.
  - `os.listdir` is the opaque `listing` of the environment; the error row of
    `list_files` is one of its possible values.
  - `os.makedirs` is left out.
- `now_iso()` and `time.time()` are parameters: the `accepted` and `finished` strings, and
  the `uptime` function.
- Logging, the SIGINT handler, the banner and the client's `print` calls are left out. What
  the client shows is recorded as a sequence of `Reply` values instead of printed text.
- `input()` is a script of lines. End of input and `KeyboardInterrupt` are modelled together
  as the script running out, after which the client sends `exit`.
- Text is ASCII. `lower()` folds only `A`-`Z`. For a byte of 128 or more the model's
  decoding gives U+FFFD. Python decodes valid UTF-8 to the character itself and replaces
  only invalid sequences, so non-ASCII text is not modelled.
- A connection's `room` does not depend on whether the peer resets. After a reset the
  handler's best-effort `ERR [Errno 104] ...` line counts as delivered whenever `room`
  allows it, though a real socket that has received a reset cannot deliver it.
- Exceptions other than a broken pipe and a reset are not modelled. Examples are a file
  that vanishes between `isfile` and `open`, or a read error inside `send_file`.
- The replies to `help`, `about` and `who` have no round-trip lemma of their own.
  Their lines are fixed texts (`HELP_LINE`, `ABOUT_LINE`) or built by `WhoLine`. The client
  shows them as one line by the generic `Protocol.OneLineRoundTrip`. This model does not
  prove that those texts meet its conditions.
- Protocol.ListRoundTrip: it requires every listed name to read back as itself, a non-empty
  line without surrounding whitespace other than `FILES END`. An empty name in the listing
  would end the client's table early. An empty name cannot come from `os.listdir`.
- Protocol.StatusRoundTrip: it likewise requires every status row to read back as itself.
  `Protocol.StatusRoundTripText` derives that from conditions on the entries. Each
  `accepted` and `finished` text must be ASCII without a newline. Each address must be a
  non-empty ASCII line without a newline or surrounding whitespace. `now_iso()` and
  `str(addr)` are not modelled, so these conditions are assumptions about them.
- Text.ParseInt: the digit limit is the default 4300 of CPython 3.11 and later (and of
  3.7.14 to 3.10.7). A limit changed by `sys.set_int_max_str_digits` or
  `PYTHONINTMAXSTRDIGITS`, and older interpreters without a limit, are not modelled. The
  round trips of a stored file hold for sizes of at most 4300 digits.
- FileTransfer.ReceivePayload: the client hashes the bytes it wrote in one step at the end,
  instead of updating the hash chunk by chunk. Both give the digest of the same bytes, so
  this is equivalent.
