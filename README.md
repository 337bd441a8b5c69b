# RTSP client: control connection, RTP reception and playout, session façade

This project models the Python RTSP client in `RTSPClientPython/rtsp.py` and
`RTSPClientPython/session.py` in Dafny, and proves properties of the model.
The client drives an RTSP 1.0 (RFC 2326) server over a control connection:
SETUP, PLAY, PAUSE and TEARDOWN. It receives RTP (RFC 3550) datagrams into a
reorder buffer and plays frames from that buffer at a fixed rate. The
`Session` façade reports what happens to registered listeners.

The model has these parts.

- **Python built-ins** (`pystr.dfy`, `pystrfacts.dfy`). `str.strip()`,
  `str.lower()`, `str.split(sep, maxsplit)`, `"sep".join`, `int(text)` and
  `str(n)`, written out for the cases the client uses. A numeral carried
  through `str`, padded and read with `int` gives back its number.
- **RTSP text** (`wire.dfy`, `wirefacts.dfy`, `replyfacts.dfy`,
  `requestfacts.dfy`).
  - `Response.__init__` reads a reply given as the lines its `readline()`
    calls return. `ResponseOf` is the specification and `ReadResponse` and
    `ReadHeaders` the imperative loop.
  - The request text `send_request` writes, exactly as written: `\n` line
    ends, `CSeq` on the first request and `Cseq` later, `client_port= `.
  - A decoder for request text, which reads the sent requests back.
- **RTP** (`rtp.dfy`, `rtpfacts.dfy`). The fixed-header decode of
  `listen_for_rtp`, and an encoder for the fields `listen_for_rtp` reads.
- **Jitter buffer** (`playout.dfy`, `playoutfacts.dfy`). `insert_frame`,
  one datagram through `listen_for_rtp`, one iteration of `process_frames`,
  and the statistics counters, as functions over a `Playout` value.
- **Connection** (`control.dfy`, `controlfacts.dfy`, `connection.dfy`).
  - `Control` gives each operation of `Connection` as a step from one field
    value `Conn` to the next, with the result or the exception raised.
  - `Rtsp.Connection` is a class over the same fields. Each of its methods
    is proved to leave `Model()` as the matching step says.
- **Session** (`events.dfy`, `session.dfy`). `Facade.Session` holds the
  video name, the listeners and the connection. Every listener call is
  appended to an `events` trace, and each method is proved to append exactly
  the calls session.py makes, in its order.
- **Scenarios** (`scenarios.dfy`). A whole SETUP, PLAY, PAUSE, TEARDOWN
  exchange; a refused PLAY; buffer insertions; one JPEG datagram.

Sockets, threads and clocks are abstracted as follows.

- Requests written to the control socket are appended to the `sent` log.
- The reply a method reads is a parameter of type `seq<string>`, one entry
  per `readline()`.
- The session's `video_name`, which `send_request` reads, is a parameter of
  the connection's methods.
- The UDP port the operating system assigns (`getsockname`) is a parameter
  of `Setup`.
- Each datagram `recvfrom` delivers is one `OnDatagram` call.
- The `Event` and the `signalTeardown` flag are booleans. Both start out
  false.
- One iteration of `process_frames` is one `PlaybackTick` call, and the
  frame it hands to `session.process_frame` is its `Emitted` outcome.

The following behaviours of the code as written are kept.

- `insert_frame` falls back to `insert(len - 1, frame)` when no buffered
  frame has a larger sequence number. That places the newest frame before
  the last one, so the buffer is not kept sorted.
  `PlayoutFacts.InsertedSorted` says exactly when sortedness survives, and
  `Scenarios.InsertNewest` shows it failing.
- A command in the wrong state is a silent no-op that sends nothing.
- A failed reply leaves the state unchanged, but `cseq` has already
  advanced.
- TEARDOWN does not clear `session_id`.
- The CSeq in a reply is never compared with the request's CSeq. Any
  accepted reply moves the state on.
- `late_packets` can never grow. `PlayoutFacts.InvLost` proves this: the
  cursor is always past the last frame played, and frames are only played
  at the cursor.
- An enabled tick looks for the first frame that is not behind the cursor.
  - If that frame is the head, nothing is popped. A head at the cursor is
    emitted and stays in the buffer, and the next tick pops it as stale.
  - If stale frames come before it, the loop pops it together with them.
    It is emitted when it carries the cursor's number and otherwise lost:
    a frame ahead of the cursor found behind stale frames is dropped
    unplayed. `Scenarios.EmitAfterStale` and `Scenarios.SkipDropsAhead`
    show both cases.
  - With no such frame the buffer is emptied and the tick skips.
- `listen_for_rtp` reads header bytes 1 to 7 only.
  - A datagram of 1 to 7 bytes raises `IndexError`, and the model reports
    it as `Truncated` with no state change.
  - A datagram of 8 to 11 bytes decodes with an empty payload.
  - `OnDatagram` therefore takes any datagram and has no `|data| >= 12`
    precondition, which would exclude inputs the code handles.

## Model

| member | source | states |
|---|---|---|
| Wire.ReadHeaders | RTSPClientPython/rtsp.py:24-34 | the header `while True` loop yields exactly the header block `HeaderBlock(lines)`: the lines read until the first empty or colon-free one, taken in order |
| Wire.ReadResponse | RTSPClientPython/rtsp.py:13-41 | `Response(reader)` returns or raises exactly what `ResponseOf(lines)` says |
| Wire.HeaderEndSpec | RTSPClientPython/rtsp.py:26-28 | header reading stops at the first line from the start on that is blank or has no colon, at most one past the last line |
| Wire.HeaderLinesColons | RTSPClientPython/rtsp.py:28-29 | every header line that is taken holds a colon, so `split(':', 1)` yields two parts |
| Wire.HeaderEndAfter | RTSPClientPython/rtsp.py:27-28 | a non-empty stripped line with a colon lies inside the header block |
| Wire.HeaderEndStop | RTSPClientPython/rtsp.py:28 | the first line that ends the block is its end, one after the last block line |
| Wire.BlockLines | RTSPClientPython/rtsp.py:26-29 | every line of the header block holds a colon |
| WireFacts.StatusFormat | RTSPClientPython/rtsp.py:16-19 | the status line is refused as badly formatted exactly when it holds fewer than two spaces |
| WireFacts.StatusLineRoundTrip | RTSPClientPython/rtsp.py:16-23 | `RTSP/1.0 <code> <message>` yields version, code and message back, the message keeping any spaces |
| WireFacts.FirstBad | RTSPClientPython/rtsp.py:31-34 | the first header line whose `cseq` or `session` value is not an integer, or none |
| WireFacts.LastNamed | RTSPClientPython/rtsp.py:30 | the last header line with a given lowercased name, or none |
| WireFacts.AddHeaderStep | RTSPClientPython/rtsp.py:29-34 | a header line fails exactly when it is a `cseq`/`session` line with a non-integer value; otherwise it sets the field and only the matching integer |
| WireFacts.AddHeadersFails | RTSPClientPython/rtsp.py:26-34 | the header block raises exactly when some line has a bad integer value, with the first such value |
| WireFacts.AddHeadersFields | RTSPClientPython/rtsp.py:30 | a repeated header name keeps the value of its last line; a name absent from the block keeps its earlier value |
| WireFacts.AddHeadersInts | RTSPClientPython/rtsp.py:31-34 | the integer `cseq` and `session_id` come from the last `cseq` and `session` lines |
| WireFacts.ResponseRejected | RTSPClientPython/rtsp.py:8-38 | each way a reply is refused: a status line error first, then the first bad header integer, then a code other than 200 with its `Server error: ...` text |
| WireFacts.ResponseAccepted | RTSPClientPython/rtsp.py:16-41 | a reply is accepted iff its status line parses with code 200, no header integer is bad and both `cseq` and `session` headers occur; its fields are then the parsed values and the last value per header name |
| ReplyFacts.HeaderEndPrefix | RTSPClientPython/rtsp.py:26-28 | lines after the one ending the block do not move the block's end |
| ReplyFacts.ReplyPrefix | RTSPClientPython/rtsp.py:13-41 | once the header block has ended, further lines do not change the outcome |
| ReplyFacts.BlockLinesPrefix | RTSPClientPython/rtsp.py:26-28 | further lines after the block do not change the block |
| ReplyFacts.SameReply | RTSPClientPython/rtsp.py:13-41 | the outcome depends only on the status line and the header block |
| ReplyFacts.IntHeaderLineParts | RTSPClientPython/rtsp.py:27-34 | a `Name: <n>` line strips to itself, does not end the block, and yields the lowercased name and the integer `n` |
| ReplyFacts.IntHeaderStrip | RTSPClientPython/rtsp.py:27 | `strip()` removes the line end of a `Name: <n>` line |
| ReplyFacts.HeaderNames | RTSPClientPython/rtsp.py:31-33 | `CSeq` and `Session` lowercase to the names the code compares with |
| ReplyFacts.CSeqHeader | RTSPClientPython/rtsp.py:29-32 | a `CSeq: <n>` line stores ` <n>` under `cseq` and sets the integer CSeq to `n` |
| ReplyFacts.SessionHeader | RTSPClientPython/rtsp.py:29-34 | a `Session: <n>` line stores ` <n>` under `session` and sets the session id to `n` |
| ReplyFacts.ReplyEnd | RTSPClientPython/rtsp.py:26-28 | in a canned reply the blank line after `CSeq` and `Session` ends the block |
| ReplyFacts.ReplyBlock | RTSPClientPython/rtsp.py:26-29 | the canned reply's block is its two header lines, stripped |
| ReplyFacts.ReplyHeaders | RTSPClientPython/rtsp.py:26-34 | those two lines give the header map and both integers |
| ReplyFacts.ReplyRoundTrip | RTSPClientPython/rtsp.py:13-41 | a canned reply with code 200 is accepted with every field it was built from, and any other code raises `RTSPException` with its message and code |
| RequestFacts.RequestLineParts | RTSPClientPython/rtsp.py:93 | a Request-Line splits on its first two spaces into command, URI and version |
| RequestFacts.HeaderParts | RTSPClientPython/rtsp.py:93 | a `name:value` line splits at its first colon into its two halves |
| RequestFacts.ThreeLines | RTSPClientPython/rtsp.py:93 | three lines and the closing blank line split into the three lines and two empty strings |
| RequestFacts.DecodeTwoHeaderRequest | RTSPClientPython/rtsp.py:93 | a request with two headers decodes to its Request-Line parts and both headers |
| RequestFacts.SetupRequestLines | RTSPClientPython/rtsp.py:93 | the first request is a Request-Line, `CSeq: <n>` and `Transport: <t>; client_port= <port>` |
| RequestFacts.SessionRequestLines | RTSPClientPython/rtsp.py:101 | every later request is a Request-Line, `Cseq: <n>` and `Session: <id>` |
| RequestFacts.SetupRequestDecodes | RTSPClientPython/rtsp.py:93 | the first request decodes back to its command, name, version and the `CSeq` and `Transport` headers, and the CSeq reads back as its number |
| RequestFacts.SessionRequestDecodes | RTSPClientPython/rtsp.py:101 | a later request decodes back to its command, name and the `Cseq` and `Session` headers, both integers reading back |
| PyStrFacts.StripLeftSpec | RTSPClientPython/rtsp.py:27 | left stripping removes a prefix of white space and stops at the first other character |
| PyStrFacts.StripRightSpec | RTSPClientPython/rtsp.py:27 | right stripping removes a suffix of white space and stops at the last other character |
| PyStrFacts.StripPadded | RTSPClientPython/rtsp.py:27 | stripping leading white space off text that neither starts nor ends in white space gives the text |
| PyStrFacts.StripNewline | RTSPClientPython/rtsp.py:27 | `strip()` removes the line end `readline()` leaves on a line |
| PyStrFacts.FindSpec | RTSPClientPython/rtsp.py:28-29 | the separator is found iff it occurs, at its first occurrence |
| PyStrFacts.SplitMaxOne | RTSPClientPython/rtsp.py:16-18 | `split` gives a single part iff the separator does not occur |
| PyStrFacts.SplitMaxJoin | RTSPClientPython/rtsp.py:16 | joining the parts of `split(sep, maxsplit)` with `sep` gives the text back |
| PyStrFacts.SplitMaxParts | RTSPClientPython/rtsp.py:20 | every part but the last is free of the separator |
| PyStrFacts.SplitMaxCount | RTSPClientPython/rtsp.py:16-18 | `split(sep, maxsplit)` gives 1 + min(number of separators, maxsplit) parts |
| PyStrFacts.SplitAllCons | RTSPClientPython/rtsp.py:93 | splitting at every separator peels off a separator-free head |
| PyStrFacts.SplitMaxCons | RTSPClientPython/rtsp.py:29 | a bounded split peels off a separator-free head and spends one split |
| PyStrFacts.NatStrValue | RTSPClientPython/rtsp.py:93 | the decimal text `str()` gives a natural number has that value |
| PyStrFacts.NatStrNumeral | RTSPClientPython/rtsp.py:93 | that text is an unsigned numeral `int()` accepts, with no white space at either end |
| PyStrFacts.SignedNumeralOfStr | RTSPClientPython/rtsp.py:93 | the text of `str(n)` for any integer `n` reads back as `n` |
| PyStrFacts.IntStrRoundTrip | RTSPClientPython/rtsp.py:32-34 | `int(ws + str(n)) == n` for any white space prefix `ws`, as in a header value after its colon |
| PyStrFacts.StrChars | RTSPClientPython/rtsp.py:101 | `str(n)` holds only digits and a sign: no space, line end or colon |
| Rtp.Decode | RTSPClientPython/rtsp.py:125-131 | a datagram decodes iff it has at least 8 bytes; then marker is 0 or 1, payload type below 128, sequence number below 2^16 and timestamp below 2^32 |
| RtpFacts.DecodeFields | RTSPClientPython/rtsp.py:128-131 | marker, payload type, sequence number and timestamp are the top bit, the low 7 bits, bytes 2-3 and bytes 4-7 big-endian |
| RtpFacts.Field16Value | RTSPClientPython/rtsp.py:130 | `b2 << 8 \| b3` is `b2 * 256 + b3` |
| RtpFacts.Field32Value | RTSPClientPython/rtsp.py:131 | the four-byte shift-and-or is the big-endian value |
| RtpFacts.MarkerType | RTSPClientPython/rtsp.py:128-129 | `b >> 7` and `b & 0x7F` are the quotient and remainder by 128 |
| RtpFacts.DecodePayload | RTSPClientPython/rtsp.py:125-126 | the payload is `data[12:]`: empty for an 8 to 12-byte datagram |
| RtpFacts.DecodeIgnores | RTSPClientPython/rtsp.py:125-131 | byte 0 and the SSRC (bytes 8-11) do not affect the decoded frame |
| RtpFacts.DecodeEncode | RTSPClientPython/rtsp.py:125-134 | decoding the encoding of any frame with in-range fields returns that frame |
| PlayoutFacts.FirstGreaterSpec | RTSPClientPython/rtsp.py:179-180 | the scan finds the first frame with a larger sequence number, or finds none iff no frame has one |
| PlayoutFacts.InsertedBeforeGreater | RTSPClientPython/rtsp.py:179-182 | the new frame lands just before the first frame with a larger number, after those with equal numbers |
| PlayoutFacts.InsertedNoGreater | RTSPClientPython/rtsp.py:183 | with no larger number the new frame lands at index max(len-1, 0) |
| PlayoutFacts.InsertedShape | RTSPClientPython/rtsp.py:177-184 | the new frame goes before the first frame with a larger number, else at index max(len-1, 0); the buffer grows by exactly that frame, and removing it gives the old buffer back in its order |
| PlayoutFacts.InsertedElements | RTSPClientPython/rtsp.py:177-184 | every frame of the new buffer is the new one or an old one |
| PlayoutFacts.InsertedSorted | RTSPClientPython/rtsp.py:177-184 | a sorted buffer stays sorted iff it is empty or the new frame's number is at most that of the last frame |
| PlayoutFacts.DropStaleSpec | RTSPClientPython/rtsp.py:198-200 | the popping loop leaves a suffix of the buffer and the frame it stopped at, pops nothing when the head is current, and empties the buffer when every frame is stale |
| PlayoutFacts.DropStaleStopsAtCurrent | RTSPClientPython/rtsp.py:198-200 | from a stale frame the loop ends at the first buffered frame not behind the cursor, with only the frames after it left; with none it ends at the last frame with nothing left |
| PlayoutFacts.DropStaleFrom | RTSPClientPython/rtsp.py:198-200 | the same from the stale frame at any index of the buffer |
| PlayoutFacts.TickSpec | RTSPClientPython/rtsp.py:189-212 | a stop empties the buffer; otherwise the enable rule holds, the cursor advances exactly on enabled ticks, the emitted frame is the one at the cursor and the counters are recorded, and the buffer after is a suffix of the buffer before |
| PlayoutFacts.TickFirstCurrent | RTSPClientPython/rtsp.py:196-212 | an enabled tick emits the first frame not behind the cursor iff it carries the cursor's number, and skips otherwise or when there is none; the buffer is kept whole when that frame is the head, else cut to the frames after it, and emptied when there is none |
| PlayoutFacts.TickKeepsPlayedHead | RTSPClientPython/rtsp.py:198-212 | a current head is emitted without being popped |
| PlayoutFacts.TickPopsStaleHead | RTSPClientPython/rtsp.py:198-200 | a stale head is popped |
| PlayoutFacts.RecordSpec | RTSPClientPython/rtsp.py:215-228 | total rises by one; out-of-order rises iff the number is not previous+1, and then exactly one of late and early rises; frame_seqnum and max_seqnum update |
| PlayoutFacts.TickInv | RTSPClientPython/rtsp.py:189-228 | a tick keeps the counter invariant |
| PlayoutFacts.PlayedInv | RTSPClientPython/rtsp.py:198-228 | the state an enabled tick leaves, with a frame played or not, keeps the counter invariant |
| PlayoutFacts.SuffixNonNegative | RTSPClientPython/rtsp.py:198-200 | the frames left after popping keep non-negative sequence numbers |
| PlayoutFacts.RecordInv | RTSPClientPython/rtsp.py:215-228 | playing the frame at a non-negative cursor keeps the counter invariant |
| PlayoutFacts.ReceiveInv | RTSPClientPython/rtsp.py:123-135 | a datagram keeps the counter invariant |
| PlayoutFacts.ReceiveSpec | RTSPClientPython/rtsp.py:123-135 | a datagram is buffered iff it decodes and is not behind the cursor, and is then inserted; empty, short and late ones change nothing |
| PlayoutFacts.ResetInv | RTSPClientPython/rtsp.py:273-282 | the counters `setup` resets satisfy the invariant |
| PlayoutFacts.InvLost | RTSPClientPython/rtsp.py:158 | under the invariant `pkts_lost` is never negative, `late_packets` stays 0, and every out-of-order frame is early |
| ControlFacts.SendFirstSetup | RTSPClientPython/rtsp.py:85-96 | after a reset SETUP sets `cseq` to 1 and sends one request that decodes to `SETUP <name> RTSP/1.0`, `CSeq: 1` and `Transport: <t>; client_port= <port>` |
| ControlFacts.SendFirstOther | RTSPClientPython/rtsp.py:85-92 | after a reset any other command sends nothing and sets `cseq` to 1 (unless it is empty), raising when it is shorter than three characters |
| ControlFacts.SendLater | RTSPClientPython/rtsp.py:97-104 | later requests raise `cseq` by one and send one request that decodes to the command, `Cseq: <n>` and `Session: <id>` |
| ControlFacts.SendFrame | RTSPClientPython/rtsp.py:81-104 | any request changes only `cseq` and appends at most one entry to the log; `cseq` advances by exactly one once set; a missing session id raises |
| ControlFacts.InitialSpec | RTSPClientPython/rtsp.py:53-74 | the constructed connection is in INIT with no `cseq`, nothing sent, and the counter invariant |
| ControlFacts.SetupKeeps | RTSPClientPython/rtsp.py:257-282 | SETUP keeps the connection well formed and the counter invariant |
| ControlFacts.PlayKeeps | RTSPClientPython/rtsp.py:291-296 | PLAY keeps the connection well formed and the buffer untouched |
| ControlFacts.PauseKeeps | RTSPClientPython/rtsp.py:305-310 | PAUSE keeps the connection well formed and the buffer untouched |
| ControlFacts.TeardownKeeps | RTSPClientPython/rtsp.py:322-331 | TEARDOWN keeps the connection well formed and the buffer untouched |
| ControlFacts.OutsideStateNoOp | RTSPClientPython/rtsp.py:257-322 | outside INIT, READY, PLAYING, or READY/PLAYING respectively, each command changes nothing and returns normally |
| ControlFacts.SetupSpec | RTSPClientPython/rtsp.py:257-282 | from INIT: `cseq` 1, the port, `signalTeardown` cleared, the request logged; success iff a name is set and the reply is accepted, then READY with the reply's session id, cursor 0 and counters reset; failure keeps INIT with the error raised |
| ControlFacts.PlaySpec | RTSPClientPython/rtsp.py:291-296 | from READY: stop event cleared, `cseq` + 1, PLAY logged; PLAYING iff the reply is accepted, else READY with the error |
| ControlFacts.PauseSpec | RTSPClientPython/rtsp.py:305-310 | from PLAYING: stop event set, `cseq` + 1, PAUSE logged; READY iff the reply is accepted, else PLAYING with the error |
| ControlFacts.TeardownSpec | RTSPClientPython/rtsp.py:322-331 | from READY or PLAYING: `cseq` + 1, TEARDOWN logged; INIT iff the reply is accepted, and `signalTeardown` set iff accepted from PLAYING; session id kept |
| ControlFacts.CloseSpec | RTSPClientPython/rtsp.py:339 | `close` sets `signalTeardown` and nothing else, in every state |
| Rtsp.Connection.constructor | RTSPClientPython/rtsp.py:53-74 | the fields start in INIT, with no `cseq`, an empty buffer, cursor -1 and zeroed counters |
| Rtsp.Connection.SendRequest | RTSPClientPython/rtsp.py:81-104 | the fields and result are those of `SendStep` |
| Rtsp.Connection.StartRtpTimer | RTSPClientPython/rtsp.py:115-118 | the stop event is clear and nothing else changes |
| Rtsp.Connection.StopRtpTimer | RTSPClientPython/rtsp.py:230-233 | the stop event is set and nothing else changes |
| Rtsp.Connection.Setup | RTSPClientPython/rtsp.py:257-282 | the fields and result are those of `SetupStep` |
| Rtsp.Connection.Prepare | RTSPClientPython/rtsp.py:258-264 | `signalTeardown` cleared, `cseq` reset, RTP port recorded, nothing else |
| Rtsp.Connection.Established | RTSPClientPython/rtsp.py:271-282 | session id, READY, cursor 0 and reset counters, nothing else |
| Rtsp.Connection.Play | RTSPClientPython/rtsp.py:291-296 | the fields and result are those of `PlayStep` |
| Rtsp.Connection.Pause | RTSPClientPython/rtsp.py:305-310 | the fields and result are those of `PauseStep` |
| Rtsp.Connection.MoveTo | RTSPClientPython/rtsp.py:296 | only the state changes |
| Rtsp.Connection.Teardown | RTSPClientPython/rtsp.py:322-331 | the fields and result are those of `TeardownStep` |
| Rtsp.Connection.Ended | RTSPClientPython/rtsp.py:325-331 | INIT, with `signalTeardown` set iff the state was PLAYING |
| Rtsp.Connection.Close | RTSPClientPython/rtsp.py:339 | the fields are those of `CloseStep` |
| Rtsp.Connection.InsertFrame | RTSPClientPython/rtsp.py:177-184 | the buffer becomes `Inserted(buffer, frame)` and nothing else changes |
| Rtsp.Connection.OnDatagram | RTSPClientPython/rtsp.py:123-135 | the arrival and new buffer are those of `Receive`, and nothing outside the jitter buffer changes |
| Rtsp.Connection.PopStale | RTSPClientPython/rtsp.py:198-200 | the frame and buffer are those of `DropStale`, and nothing else changes |
| Rtsp.Connection.RecordPlayed | RTSPClientPython/rtsp.py:215-228 | the counters become `Record(stats, num)` and nothing else changes |
| Rtsp.Connection.PlaybackTick | RTSPClientPython/rtsp.py:189-228 | the outcome and jitter buffer are those of `Tick`, and nothing outside the jitter buffer changes |
| Events.Notify | RTSPClientPython/session.py:66-67 | one listener receives one call per notice |
| Events.BroadcastLength | RTSPClientPython/session.py:125-126 | the loop over listeners makes |listeners| × |notices| calls |
| Events.BroadcastAt | RTSPClientPython/session.py:103-105 | call `i * n + j` goes to listener `i` with notice `j`: listeners in registration order, each receiving the notices in order |
| Events.BroadcastOne | RTSPClientPython/session.py:135-137 | a single notice reaches each listener once, in registration order |
| Facade.Session.constructor | RTSPClientPython/session.py:43-50 | no video name, no listeners, no calls, and a fresh connection in its initial state |
| Facade.Session.Announce | RTSPClientPython/session.py:125-126 | the trace grows by `Broadcast(listeners, ns)`; nothing else changes |
| Facade.Session.AddListener | RTSPClientPython/session.py:52-59 | the listener is appended and told the current video name, nothing else |
| Facade.Session.HandleException | RTSPClientPython/session.py:121-126 | each listener receives `exception_thrown(e)` |
| Facade.Session.Open | RTSPClientPython/session.py:61-69 | the video name is set even when setup fails; the connection takes the SETUP step; every listener then gets `video_name_changed(name)` on success or `exception_thrown` on failure |
| Facade.Session.Play | RTSPClientPython/session.py:71-82 | the connection takes the PLAY step; no call on success, one `exception_thrown` per listener on failure |
| Facade.Session.Pause | RTSPClientPython/session.py:84-94 | the connection takes the PAUSE step; no call on success, one `exception_thrown` per listener on failure |
| Facade.Session.Teardown | RTSPClientPython/session.py:96-107 | the connection takes the TEARDOWN step; unless it raised (including the INIT no-op), the video name is cleared and each listener gets `frame_received(None)` then `video_name_changed(None)` |
| Facade.Session.Close | RTSPClientPython/session.py:109-119 | the connection takes the close step; each listener gets `video_name_changed(None)` then `frame_received(None)`; the video name stays |
| Facade.Session.ProcessFrame | RTSPClientPython/session.py:128-137 | a frame with the five arguments unchanged reaches every listener iff the video name is non-empty |
| Facade.Session.PlaybackTick | RTSPClientPython/rtsp.py:189-212 | one playout tick; an emitted frame goes through `process_frame` to the listeners |
| Facade.Session.Shown | RTSPClientPython/session.py:17-35 | the `VideoFrame` built from a played frame carries its five fields unchanged |
| Scenarios.OkAccepted | RTSPClientPython/rtsp.py:13-41 | a 200 reply with `CSeq` and `Session` headers is accepted whatever CSeq it carries, and names its session |
| Scenarios.SetupAccepted | RTSPClientPython/rtsp.py:257-282 | SETUP from a fresh connection with an accepted reply: READY, `cseq` 1, the SETUP request logged |
| Scenarios.PlayAccepted | RTSPClientPython/rtsp.py:291-296 | PLAY with an accepted reply: PLAYING, the next CSeq, the PLAY request logged |
| Scenarios.PauseAccepted | RTSPClientPython/rtsp.py:305-310 | PAUSE with an accepted reply: READY, the next CSeq, the PAUSE request logged |
| Scenarios.TeardownAccepted | RTSPClientPython/rtsp.py:322-331 | TEARDOWN from READY with an accepted reply: INIT, the next CSeq, the request logged, `signalTeardown` unchanged |
| Scenarios.WholeSession | RTSPClientPython/rtsp.py:85-103 | SETUP, PLAY, PAUSE, TEARDOWN with accepted replies send exactly four requests with CSeq 1, 2, 3, 4 and the first reply's session id, and end in INIT |
| Scenarios.PlayPauseTeardown | RTSPClientPython/rtsp.py:291-331 | from READY after SETUP: PLAY, PAUSE, TEARDOWN send CSeq 2, 3, 4 and end in INIT |
| Scenarios.PauseTeardown | RTSPClientPython/rtsp.py:305-331 | from PLAYING: PAUSE, TEARDOWN send CSeq 3, 4 and end in INIT |
| Scenarios.RefusedPlay | RTSPClientPython/rtsp.py:36-38 | a 454 reply to PLAY raises `RTSPException`, stays READY, yet CSeq advanced and the request went out |
| Scenarios.InsertOutOfOrder | RTSPClientPython/rtsp.py:177-184 | frames 5, 3, 4 inserted into an empty buffer end up as 3, 4, 5 |
| Scenarios.InsertNewest | RTSPClientPython/rtsp.py:183 | frame 5 inserted after 3 lands before it, so the buffer is no longer sorted |
| Scenarios.EmitAfterStale | RTSPClientPython/rtsp.py:196-212 | with frames 2 and 5 and cursor 5, the tick pops both and emits frame 5, leaving an empty buffer |
| Scenarios.SkipDropsAhead | RTSPClientPython/rtsp.py:196-212 | with frames 2 and 7 and cursor 5, the tick pops both and emits nothing, so frame 7 is lost |
| Scenarios.DecodeJpeg | RTSPClientPython/rtsp.py:125-131 | a marked JPEG datagram numbered 5 at time 100 decodes to those fields and its payload |

## Left out

- Sockets: creating, binding and connecting the TCP and UDP sockets,
  `settimeout`, `send`, `makefile`, `shutdown` and `close` (rtsp.py
  76-78, 261-264, 329-330, 340-341). Sent requests are a log, replies are
  inputs and the assigned port is a parameter.
- `recv_response` (rtsp.py 235-242): I/O, and nothing calls it.
- Threads, `Event` and `Timer` (rtsp.py 115-118), and the sharing of
  `buffer` between the two loops. Concurrency is outside the model; the
  loops are one step per call.
- The exception branch of `listen_for_rtp` (rtsp.py 153-175): it runs on
  socket timeouts and errors. Its float frame-rate and loss-rate divisions
  and the clock reads (rtsp.py 155-160, 187, 193, 203, 214) are left out
  too. Only the integer `pkts_lost` is modelled, as `PacketsLost`.
- `print` calls and the commented-out code (rtsp.py 136-152).
- `VideoFrame.get_image` (session.py 37-40): it calls an image library.
- `main.py` is not part of this model: it is the user interface.
- `Rtsp.Connection.OnDatagram`: a 1 to 7-byte datagram raises `IndexError`
  in the code, which ends up in the exception branch. The model reports it
  as `Truncated` and changes nothing, and does not model what that branch
  does.
- `Control.TeardownStep`: from READY the code calls `shutdown` on the
  RTP socket (rtsp.py 329). That UDP socket is bound but never connected,
  so on Linux the call raises `OSError` (ENOTCONN) after the reply was
  accepted. `close()` and `state = 'INIT'` (rtsp.py 330-331) are then
  skipped, the connection stays READY, and `Session.teardown` sends
  `exception_thrown` (session.py 100-107). The model assumes the socket
  calls succeed and moves to INIT.
- `Control.CloseStep` and `Control.SendStep`: after `close()` the control
  socket is closed. A second `close()` raises `OSError` from `shutdown`
  (rtsp.py 340-341), and so does any request (rtsp.py 95, 103). The model
  assumes these socket calls succeed.
- `PyStr.Lower`: folds only ASCII letters. Python's `lower()` folds every
  Unicode letter, but RTSP header names are ASCII.
- `PyStr.PyInt`: accepts only ASCII digits. Python's `int()` also accepts
  other Unicode decimal digits.
