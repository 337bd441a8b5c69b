/**
  Properties of the reply parser and of the request text: when a reply is
  rejected, how its header block is read, and that a request reads back as
  the request line and headers it was built from.
 */
module WireFacts {
  import opened Wrappers
  import opened PyStr
  import opened PyStrFacts
  import opened Wire

  // ---------------------------------------------------------------------
  // Status line

  /** The status line is rejected as malformed exactly when it has fewer than two spaces. */
  lemma StatusFormat(line: string)
    ensures ParseStatus(line) == Failure(InvalidFormat) <==> multiset(line)[' '] < 2
  {
    SplitMaxCount(line, ' ', 2);
  }

  /** A status line `RTSP/1.0 <code> <message>` is accepted with that code and message. */
  lemma StatusLineRoundTrip(code: int, message: string)
    ensures ParseStatus(Version + " " + Str(code) + " " + message) == Success(Status(Version, code, message))
  {
    var c := Str(code);
    StrChars(code);
    assert ' ' !in Version;
    var line := Version + " " + c + " " + message;
    assert line == Version + [' '] + (c + [' '] + message);
    SplitMaxCons(Version, ' ', c + [' '] + message, 2);
    SplitMaxCons(c, ' ', message, 1);
    IntStrRoundTrip("", code);
    assert "" + c == c;
  }

  // ---------------------------------------------------------------------
  // Header block

  /** A header line that raises: a `cseq` or `session` value that `int()` rejects. */
  predicate BadValue(line: string) {
    && ':' in line
    && (HeaderName(line) == "cseq" || HeaderName(line) == "session")
    && PyInt(HeaderValue(line)).None?
  }

  /** The first line from `p` on that raises. */
  function FirstBad(hs: seq<string>, p: nat): (k: Option<nat>)
    requires p <= |hs| && HeaderLinesOk(hs)
    ensures k.Some? ==> p <= k.value < |hs| && BadValue(hs[k.value])
                        && forall j :: p <= j < k.value ==> !BadValue(hs[j])
    ensures k.None? ==> forall j :: p <= j < |hs| ==> !BadValue(hs[j])
    decreases |hs| - p
  {
    if p == |hs| then None
    else if BadValue(hs[p]) then Some(p)
    else FirstBad(hs, p + 1)
  }

  /** The last line from `p` on whose lowercased name is `n`. */
  function LastNamed(hs: seq<string>, n: string, p: nat): (k: Option<nat>)
    requires p <= |hs| && HeaderLinesOk(hs)
    ensures k.Some? ==> p <= k.value < |hs| && HeaderName(hs[k.value]) == n
                        && forall j :: k.value < j < |hs| ==> HeaderName(hs[j]) != n
    ensures k.None? ==> forall j :: p <= j < |hs| ==> HeaderName(hs[j]) != n
    decreases |hs| - p
  {
    if p == |hs| then None
    else match LastNamed(hs, n, p + 1)
      case Some(k) => Some(k)
      case None => if HeaderName(hs[p]) == n then Some(p) else None
  }

  /** One header line: it raises exactly on a bad value; otherwise it stores its value under its name. */
  lemma AddHeaderStep(h: Headers, line: string)
    requires ':' in line
    ensures AddHeader(h, line).Failure? <==> BadValue(line)
    ensures AddHeader(h, line).Failure? ==> AddHeader(h, line).error == NotAnInteger(HeaderValue(line))
    ensures AddHeader(h, line).Success? ==>
              var h' := AddHeader(h, line).value;
              && h'.fields == h.fields[HeaderName(line) := HeaderValue(line)]
              && h'.cseq == (if HeaderName(line) == "cseq" then PyInt(HeaderValue(line)) else h.cseq)
              && h'.sessionId == (if HeaderName(line) == "session" then PyInt(HeaderValue(line)) else h.sessionId)
  {
  }

  /** The header loop raises exactly when some line has a bad value, and then on the first. */
  lemma {:induction false} AddHeadersFails(h: Headers, hs: seq<string>, p: nat)
    requires p <= |hs| && HeaderLinesOk(hs)
    ensures AddHeaders(h, hs, p).Failure? <==> FirstBad(hs, p).Some?
    ensures AddHeaders(h, hs, p).Failure? ==>
              AddHeaders(h, hs, p).error == NotAnInteger(HeaderValue(hs[FirstBad(hs, p).value]))
    decreases |hs| - p
  {
    if p < |hs| {
      AddHeaderStep(h, hs[p]);
      if !BadValue(hs[p]) {
        AddHeadersFails(AddHeader(h, hs[p]).value, hs, p + 1);
      }
    }
  }

  /** After the loop, a name holds the value of its last line; a name no line carries keeps its entry. */
  lemma {:induction false} AddHeadersFields(h: Headers, hs: seq<string>, p: nat, n: string)
    requires p <= |hs| && HeaderLinesOk(hs) && AddHeaders(h, hs, p).Success?
    ensures var fields := AddHeaders(h, hs, p).value.fields;
            match LastNamed(hs, n, p)
            case Some(k) => n in fields && fields[n] == HeaderValue(hs[k])
            case None => (n in fields <==> n in h.fields) && (n in h.fields ==> fields[n] == h.fields[n])
    decreases |hs| - p
  {
    if p < |hs| {
      AddHeaderStep(h, hs[p]);
      AddHeadersFields(AddHeader(h, hs[p]).value, hs, p + 1, n);
    }
  }

  /** After the loop, `cseq` and `session_id` hold the integers of the last `cseq` and `session` lines. */
  lemma {:induction false} AddHeadersInts(h: Headers, hs: seq<string>, p: nat)
    requires p <= |hs| && HeaderLinesOk(hs) && AddHeaders(h, hs, p).Success?
    ensures AddHeaders(h, hs, p).value.cseq ==
              match LastNamed(hs, "cseq", p)
              case Some(k) => PyInt(HeaderValue(hs[k]))
              case None => h.cseq
    ensures AddHeaders(h, hs, p).value.sessionId ==
              match LastNamed(hs, "session", p)
              case Some(k) => PyInt(HeaderValue(hs[k]))
              case None => h.sessionId
    decreases |hs| - p
  {
    if p < |hs| {
      AddHeaderStep(h, hs[p]);
      AddHeadersInts(AddHeader(h, hs[p]).value, hs, p + 1);
    }
  }

  // ---------------------------------------------------------------------
  // Whole replies

  /** Why a reply is rejected, in the order `Response` checks: status line, header values, code. */
  lemma ResponseRejected(lines: seq<string>)
    ensures var st := ParseStatus(ReadLine(lines, 0));
            var hs := BlockLines(lines);
            && (st.Failure? ==> ResponseOf(lines) == Failure(st.error))
            && (st.Success? && FirstBad(hs, 0).Some? ==>
                  ResponseOf(lines) == Failure(NotAnInteger(HeaderValue(hs[FirstBad(hs, 0).value]))))
            && (st.Success? && FirstBad(hs, 0).None? && st.value.code != Success200 ==>
                  && ResponseOf(lines) == Failure(ServerError(st.value.message, st.value.code))
                  && Message(ResponseOf(lines).error) ==
                     Some("Server error: " + st.value.message + " (error code: " + Str(st.value.code) + ")"))
  {
    var st := ParseStatus(ReadLine(lines, 0));
    var hs := BlockLines(lines);
    AddHeadersFails(NoHeaders, hs, 0);
    if st.Success? && FirstBad(hs, 0).None? && st.value.code != Success200 {
      var e := ServerError(st.value.message, st.value.code);
      assert ResponseOf(lines) == Failure(e);
      assert Message(e) == Some("Server error: " + st.value.message + " (error code: " + Str(st.value.code) + ")");
    }
  }

  /** A reply is accepted exactly when its status line is well formed with code 200, no header value
      raises, and it has `cseq` and `session` lines; the fields come from the last line of each name. */
  lemma ResponseAccepted(lines: seq<string>)
    ensures var st := ParseStatus(ReadLine(lines, 0));
            var hs := BlockLines(lines);
            ResponseOf(lines).Success? <==>
              && st.Success? && st.value.code == Success200 && FirstBad(hs, 0).None?
              && LastNamed(hs, "cseq", 0).Some? && LastNamed(hs, "session", 0).Some?
    ensures ResponseOf(lines).Success? ==>
              var r := ResponseOf(lines).value;
              var hs := BlockLines(lines);
              && r.version == Version && r.code == Success200
              && r.message == ParseStatus(ReadLine(lines, 0)).value.message
              && Some(r.cseq) == PyInt(HeaderValue(hs[LastNamed(hs, "cseq", 0).value]))
              && Some(r.sessionId) == PyInt(HeaderValue(hs[LastNamed(hs, "session", 0).value]))
              && (forall n :: n in r.headers <==> LastNamed(hs, n, 0).Some?)
              && (forall n :: n in r.headers ==> r.headers[n] == HeaderValue(hs[LastNamed(hs, n, 0).value]))
  {
    var hs := BlockLines(lines);
    AddHeadersFails(NoHeaders, hs, 0);
    if HeaderBlock(lines).Success? {
      AddHeadersInts(NoHeaders, hs, 0);
      var fields := HeaderBlock(lines).value.fields;
      forall n
        ensures n in fields <==> LastNamed(hs, n, 0).Some?
        ensures n in fields ==> fields[n] == HeaderValue(hs[LastNamed(hs, n, 0).value])
      {
        AddHeadersFields(NoHeaders, hs, 0, n);
      }
    }
  }
}
