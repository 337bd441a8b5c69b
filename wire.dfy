/**
  The RTSP 1.0 text exchanged on the control connection (RFC 2326): the
  request text `Connection.send_request` writes, and the reply that
  `Response.__init__` reads, as rtsp.py has them.
 */
module Wire {
  import opened Wrappers
  import opened PyStr
  import opened PyStrFacts

  const Version := "RTSP/1.0"
  const Success200 := 200

  /** The exceptions a control exchange can raise. */
  datatype Error =
    | InvalidFormat                             // status line without version, code and message
    | InvalidVersion                            // a version other than RTSP/1.0
    | NotAnInteger(text: string)                // ValueError from int()
    | ServerError(message: string, code: int)   // RTSPException: a reply code other than 200
    | MissingAttribute(name: string)            // AttributeError: a field read before it was assigned
    | NotAString                                // TypeError: None or a tuple concatenated to text
    | NoSuchIndex                               // IndexError: a command too short to unpack

  const InvalidFormatText := "Invalid response format. Expected first line with version, code and message"
  const InvalidVersionText := "Invalid response version. Expected RTSP/1.0"

  /** The message text of the exceptions rtsp.py raises itself; Python's own exceptions carry none here. */
  function Message(e: Error): Option<string> {
    match e
    case InvalidFormat => Some(InvalidFormatText)
    case InvalidVersion => Some(InvalidVersionText)
    case ServerError(message, code) => Some("Server error: " + message + " (error code: " + Str(code) + ")")
    case _ => None
  }

  // ---------------------------------------------------------------------
  // Reading a reply

  /** What `reader.readline()` returns the `i`-th time: line `i` of the reply, or "" past its end. */
  function ReadLine(lines: seq<string>, i: nat): string {
    if i < |lines| then lines[i] else ""
  }

  datatype Status = Status(version: string, code: int, message: string)

  /** The status line checks: three parts split on the first two spaces, the version, an integer code. */
  function ParseStatus(line: string): Result<Status, Error> {
    var parts := SplitMax(line, ' ', 2);
    if |parts| != 3 then Failure(InvalidFormat)
    else if parts[0] != Version then Failure(InvalidVersion)
    else match PyInt(parts[1])
      case None => Failure(NotAnInteger(parts[1]))
      case Some(code) => Success(Status(parts[0], code, parts[2]))
  }

  /** A line ends the header block when, stripped, it is empty or has no colon. */
  predicate EndsHeaders(line: string) {
    var t := Strip(line);
    |t| == 0 || ':' !in t
  }

  /** The header name of a line, lowercased: everything before its first colon. */
  function HeaderName(line: string): string
    requires ':' in line
  {
    Lower(SplitMax(line, ':', 1)[0])
  }

  /** The header value of a line: everything after its first colon, not stripped. */
  function HeaderValue(line: string): string
    requires ':' in line
  {
    SplitMaxOne(line, ':', 1);
    SplitMax(line, ':', 1)[1]
  }

  /** The header dictionary and the two header fields `Response` also keeps as integers. */
  datatype Headers = Headers(fields: map<string, string>, cseq: Option<int>, sessionId: Option<int>)

  const NoHeaders := Headers(map[], None, None)

  /** One header line taken into the block; a `cseq` or `session` value that is not an integer raises. */
  function AddHeader(h: Headers, line: string): Result<Headers, Error>
    requires ':' in line
  {
    var name := HeaderName(line);
    var value := HeaderValue(line);
    var stored := h.(fields := h.fields[name := value]);
    if name == "cseq" then
      match PyInt(value)
      case None => Failure(NotAnInteger(value))
      case Some(n) => Success(stored.(cseq := Some(n)))
    else if name == "session" then
      match PyInt(value)
      case None => Failure(NotAnInteger(value))
      case Some(n) => Success(stored.(sessionId := Some(n)))
    else Success(stored)
  }

  /** Lines that the header loop takes: each has a colon. */
  predicate HeaderLinesOk(hs: seq<string>) {
    forall j :: 0 <= j < |hs| ==> ':' in hs[j]
  }

  /** The header lines from position `p` on taken in order into `h`; the first that raises ends the reading. */
  function AddHeaders(h: Headers, hs: seq<string>, p: nat): Result<Headers, Error>
    requires p <= |hs| && HeaderLinesOk(hs)
    decreases |hs| - p
  {
    if p == |hs| then Success(h)
    else match AddHeader(h, hs[p])
      case Failure(e) => Failure(e)
      case Success(h') => AddHeaders(h', hs, p + 1)
  }

  /** The index of the line that ends the header block: the first from `i` on. */
  function HeaderEnd(lines: seq<string>, i: nat): (k: nat)
    ensures i <= k
    decreases |lines| - i
  {
    if EndsHeaders(ReadLine(lines, i)) then i else HeaderEnd(lines, i + 1)
  }

  /** `HeaderEnd` finds the first line from `i` on that ends the block; it is at most one past the reply. */
  lemma {:induction false} HeaderEndSpec(lines: seq<string>, i: nat)
    ensures i <= |lines| ==> HeaderEnd(lines, i) <= |lines|
    ensures EndsHeaders(ReadLine(lines, HeaderEnd(lines, i)))
    ensures forall j :: i <= j < HeaderEnd(lines, i) ==> !EndsHeaders(ReadLine(lines, j))
    decreases |lines| - i
  {
    if !EndsHeaders(ReadLine(lines, i)) {
      HeaderEndSpec(lines, i + 1);
    }
  }

  /** Lines 1 .. k - 1 of the reply, stripped. */
  function HeaderLines(lines: seq<string>, k: nat): (hs: seq<string>)
    requires k >= 1
    ensures |hs| == k - 1
  {
    seq(k - 1, j requires 0 <= j < k - 1 => Strip(ReadLine(lines, j + 1)))
  }

  /** The header block of a reply: its stripped lines after the status line, up to the one that ends it. */
  function HeaderBlock(lines: seq<string>): Result<Headers, Error> {
    AddHeaders(NoHeaders, BlockLines(lines), 0)
  }

  /** The stripped lines of the header block; each has a colon. */
  function BlockLines(lines: seq<string>): (hs: seq<string>)
    ensures HeaderLinesOk(hs)
  {
    HeaderLinesColons(lines);
    HeaderLines(lines, HeaderEnd(lines, 1))
  }

  /** A reply that `Response` accepted. */
  datatype Response = Response(version: string, code: int, message: string,
                               headers: map<string, string>, cseq: int, sessionId: int)

  /** What `Response(reader)` makes of a reply whose successive `readline()` results are `lines`. */
  function ResponseOf(lines: seq<string>): Result<Response, Error> {
    match ParseStatus(ReadLine(lines, 0))
    case Failure(e) => Failure(e)
    case Success(st) =>
      match HeaderBlock(lines)
      case Failure(e) => Failure(e)
      case Success(h) =>
        if st.code != Success200 then Failure(ServerError(st.message, st.code))
        else if h.cseq.None? then Failure(MissingAttribute("cseq"))
        else if h.sessionId.None? then Failure(MissingAttribute("session_id"))
        else Success(Response(st.version, st.code, st.message, h.fields, h.cseq.value, h.sessionId.value))
  }

  /** Every line of the header block has a colon. */
  lemma HeaderLinesColons(lines: seq<string>)
    ensures HeaderLinesOk(HeaderLines(lines, HeaderEnd(lines, 1)))
  {
    var hs := HeaderLines(lines, HeaderEnd(lines, 1));
    HeaderEndSpec(lines, 1);
    forall j | 0 <= j < |hs| ensures ':' in hs[j] {
      assert !EndsHeaders(ReadLine(lines, j + 1));
    }
  }

  /** A line that does not end the block lies before its end. */
  lemma HeaderEndAfter(lines: seq<string>, pos: nat)
    requires 1 <= pos <= HeaderEnd(lines, 1)
    requires |Strip(ReadLine(lines, pos))| != 0 && ':' in Strip(ReadLine(lines, pos))
    ensures pos < HeaderEnd(lines, 1)
  {
    HeaderEndSpec(lines, 1);
    assert !EndsHeaders(ReadLine(lines, pos));
  }

  /** Header line `pos` of the reply, stripped, is entry `pos - 1` of the block. */
  lemma BlockLineAt(lines: seq<string>, pos: nat)
    requires 1 <= pos < HeaderEnd(lines, 1)
    ensures BlockLines(lines)[pos - 1] == Strip(ReadLine(lines, pos))
  {
  }

  /** The first line that ends the block is its end. */
  lemma HeaderEndStop(lines: seq<string>, pos: nat)
    requires 1 <= pos <= HeaderEnd(lines, 1)
    requires EndsHeaders(ReadLine(lines, pos))
    ensures pos == HeaderEnd(lines, 1) == |BlockLines(lines)| + 1
  {
    HeaderEndSpec(lines, 1);
  }

  /** `AddHeader` in terms of the line's lowercased name and its value. */
  lemma AddHeaderOf(h: Headers, line: string, name: string, value: string)
    requires ':' in line
    requires name == HeaderName(line) && value == HeaderValue(line)
    ensures var stored := h.(fields := h.fields[name := value]);
            AddHeader(h, line) ==
              if name == "cseq" then
                (if PyInt(value).None? then Failure(NotAnInteger(value))
                 else Success(stored.(cseq := PyInt(value))))
              else if name == "session" then
                (if PyInt(value).None? then Failure(NotAnInteger(value))
                 else Success(stored.(sessionId := PyInt(value))))
              else Success(stored)
  {
  }

  /** The header loop of `Response.__init__`: reads stripped lines until one is empty or has no colon. */
  method ReadHeaders(lines: seq<string>) returns (r: Result<Headers, Error>)
    ensures r == HeaderBlock(lines)
  {
    ghost var end := HeaderEnd(lines, 1);
    ghost var hs := BlockLines(lines);
    var fields: map<string, string> := map[];
    var cseq: Option<int> := None;
    var sessionId: Option<int> := None;
    var pos := 1;
    while true
      invariant 1 <= pos <= end
      invariant HeaderBlock(lines) == AddHeaders(Headers(fields, cseq, sessionId), hs, pos - 1)
      decreases end - pos
    {
      var line := Strip(ReadLine(lines, pos));
      if |line| == 0 || ':' !in line {
        break;
      }
      HeaderEndAfter(lines, pos);
      BlockLineAt(lines, pos);
      ghost var before := Headers(fields, cseq, sessionId);
      var parts := SplitMax(line, ':', 1);
      SplitMaxOne(line, ':', 1);
      var name := Lower(parts[0]);
      var value := parts[1];
      AddHeaderOf(before, line, name, value);
      fields := fields[name := value];
      if name == "cseq" {
        var n := PyInt(value);
        if n.None? {
          return Failure(NotAnInteger(value));
        }
        cseq := n;
      } else if name == "session" {
        var n := PyInt(value);
        if n.None? {
          return Failure(NotAnInteger(value));
        }
        sessionId := n;
      }
      pos := pos + 1;
    }
    HeaderEndStop(lines, pos);
    return Success(Headers(fields, cseq, sessionId));
  }

  /** `Response.__init__`: the status line, the header block, then the code and the two integer fields. */
  method ReadResponse(lines: seq<string>) returns (r: Result<Response, Error>)
    ensures r == ResponseOf(lines)
  {
    var first := SplitMax(ReadLine(lines, 0), ' ', 2);
    if |first| != 3 {
      return Failure(InvalidFormat);
    }
    var version, message := first[0], first[2];
    if version != Version {
      return Failure(InvalidVersion);
    }
    var code := PyInt(first[1]);
    if code.None? {
      return Failure(NotAnInteger(first[1]));
    }
    var headers := ReadHeaders(lines);
    if headers.Failure? {
      return Failure(headers.error);
    }
    var h := headers.value;
    if code.value != Success200 {
      return Failure(ServerError(message, code.value));
    }
    if h.cseq.None? {
      return Failure(MissingAttribute("cseq"));
    }
    if h.sessionId.None? {
      return Failure(MissingAttribute("session_id"));
    }
    return Success(Response(version, code.value, message, h.fields, h.cseq.value, h.sessionId.value));
  }

  // ---------------------------------------------------------------------
  // Writing a request

  /** The text of the first request after a reset: Request-Line, `CSeq`, `Transport` with the client port. */
  function SetupRequest(req: string, name: string, cseq: int, transport: string, port: int): string {
    req + " " + name + " " + "RTSP/1.0\n" + "CSeq: " + Str(cseq) + "\nTransport: " + transport
    + "; client_port= " + Str(port) + "\n\n"
  }

  /** The text of every later request: Request-Line, `Cseq` (so spelled) and `Session`. */
  function SessionRequest(req: string, name: string, cseq: int, session: int): string {
    req + " " + name + " " + "RTSP/1.0\n" + "Cseq: " + Str(cseq) + "\nSession: " + Str(session) + "\n\n"
  }

  /** Request text read back: the Request-Line's three parts and the raw `name: value` pairs. */
  datatype RequestText = RequestText(command: string, uri: string, version: string,
                                     headers: seq<(string, string)>)

  /** Header lines up to the first empty line, each split at its first colon; None if one has no colon or none is empty. */
  function DecodeHeaders(lines: seq<string>): Option<seq<(string, string)>> {
    if lines == [] then None
    else if lines[0] == "" then Some([])
    else if ':' !in lines[0] then None
    else match DecodeHeaders(lines[1..])
      case None => None
      case Some(rest) =>
        SplitMaxOne(lines[0], ':', 1);
        var parts := SplitMax(lines[0], ':', 1);
        Some([(parts[0], parts[1])] + rest)
  }

  /** How a reader of the text splits a request: lines at '\n', the Request-Line at its first two spaces. */
  function DecodeRequest(text: string): Option<RequestText> {
    var lines := SplitAll(text, '\n');
    var first := SplitMax(lines[0], ' ', 2);
    if |first| != 3 then None
    else match DecodeHeaders(lines[1..])
      case None => None
      case Some(hs) => Some(RequestText(first[0], first[1], first[2], hs))
  }
}
