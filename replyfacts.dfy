/** Replies read whole: what follows a reply is never read, and a well-formed reply reads back. */
module ReplyFacts {
  import opened Wrappers
  import opened PyStr
  import opened PyStrFacts
  import opened Wire
  import WireFacts

  /** The header block ends at the same line when more lines follow the reply. */
  lemma {:induction false} HeaderEndPrefix(lines: seq<string>, extra: seq<string>, i: nat)
    requires 1 <= i <= HeaderEnd(lines, 1) < |lines|
    ensures HeaderEnd(lines + extra, i) == HeaderEnd(lines, 1)
    decreases HeaderEnd(lines, 1) - i
  {
    assert ReadLine(lines + extra, i) == ReadLine(lines, i);
    HeaderEndSpec(lines, 1);
    if i < HeaderEnd(lines, 1) {
      HeaderEndPrefix(lines, extra, i + 1);
    }
  }

  /** Nothing after the line that ends the header block is read. */
  lemma ReplyPrefix(lines: seq<string>, extra: seq<string>)
    requires HeaderEnd(lines, 1) < |lines|
    ensures ResponseOf(lines + extra) == ResponseOf(lines)
  {
    BlockLinesPrefix(lines, extra);
    assert ReadLine(lines + extra, 0) == ReadLine(lines, 0);
    SameReply(lines + extra, lines);
  }

  /** The header lines are the same when more lines follow the reply. */
  lemma BlockLinesPrefix(lines: seq<string>, extra: seq<string>)
    requires HeaderEnd(lines, 1) < |lines|
    ensures BlockLines(lines + extra) == BlockLines(lines)
  {
    var k := HeaderEnd(lines, 1);
    HeaderEndPrefix(lines, extra, 1);
    var a, b := HeaderLines(lines + extra, k), HeaderLines(lines, k);
    forall j | 0 <= j < k - 1 ensures a[j] == b[j] {
      HeaderLineAt(lines + extra, k, j);
      HeaderLineAt(lines, k, j);
      assert ReadLine(lines + extra, j + 1) == ReadLine(lines, j + 1);
    }
  }

  /** A reply is decided by its status line and its header lines. */
  lemma SameReply(a: seq<string>, b: seq<string>)
    requires ReadLine(a, 0) == ReadLine(b, 0) && BlockLines(a) == BlockLines(b)
    ensures ResponseOf(a) == ResponseOf(b)
  {
    assert HeaderBlock(a) == HeaderBlock(b);
  }

  /** A header line `<name>: <n>`. */
  function IntHeader(name: string, n: int): string {
    name + ": " + Str(n)
  }

  /** The same line as the reader returns it, newline included. */
  function IntHeaderLine(name: string, n: int): string {
    IntHeader(name, n) + "\n"
  }

  /** Such a line, stripped, splits into the lowercased name and a value that `int()` reads as `n`. */
  lemma IntHeaderLineParts(name: string, n: int)
    requires name != [] && !IsSpace(name[0]) && ':' !in name
    ensures var line := Strip(IntHeaderLine(name, n));
            && line == IntHeader(name, n) && ':' in line && !EndsHeaders(IntHeaderLine(name, n))
            && HeaderName(line) == Lower(name) && HeaderValue(line) == " " + Str(n)
            && PyInt(HeaderValue(line)) == Some(n)
  {
    var v := " " + Str(n);
    var t := IntHeader(name, n);
    IntHeaderStrip(name, n);
    assert t == name + [':'] + v;
    assert ':' in t;
    SplitMaxCons(name, ':', v, 1);
    IntStrRoundTrip(" ", n);
  }

  /** The reply a server gives with a status line and `CSeq` and `Session` headers, then a blank line. */
  function Reply(code: int, message: string, cseq: int, session: int): seq<string> {
    [Version + " " + Str(code) + " " + message, IntHeaderLine("CSeq", cseq), IntHeaderLine("Session", session), "\n"]
  }

  /** The header block of such a reply ends at its blank fourth line. */
  lemma ReplyEnd(code: int, message: string, cseq: int, session: int)
    ensures HeaderEnd(Reply(code, message, cseq, session), 1) == 3
  {
    IntHeaderLineGoesOn("CSeq", cseq);
    IntHeaderLineGoesOn("Session", session);
    assert Strip("\n") == "";
    HeaderEndThird(Reply(code, message, cseq, session));
  }

  /** A block whose first two header lines go on and whose third ends it ends there. */
  lemma HeaderEndThird(lines: seq<string>)
    requires |lines| == 4 && !EndsHeaders(lines[1]) && !EndsHeaders(lines[2]) && EndsHeaders(lines[3])
    ensures HeaderEnd(lines, 1) == 3
  {
    assert HeaderEnd(lines, 3) == 3;
    assert HeaderEnd(lines, 2) == 3;
  }

  /** A `name: n` line does not end the header block. */
  lemma IntHeaderLineGoesOn(name: string, n: int)
    requires name != [] && !IsSpace(name[0]) && ':' !in name
    ensures !EndsHeaders(IntHeaderLine(name, n))
  {
    var t := IntHeader(name, n);
    IntHeaderStrip(name, n);
    assert t == name + [':'] + (" " + Str(n));
    assert t[|name|] == ':';
  }

  /** The header block of such a reply is its two header lines, stripped. */
  lemma ReplyBlock(code: int, message: string, cseq: int, session: int)
    ensures BlockLines(Reply(code, message, cseq, session)) == [IntHeader("CSeq", cseq), IntHeader("Session", session)]
  {
    var lines := Reply(code, message, cseq, session);
    ReplyEnd(code, message, cseq, session);
    HeaderLineAt(lines, 3, 0);
    HeaderLineAt(lines, 3, 1);
    IntHeaderStrip("CSeq", cseq);
    IntHeaderStrip("Session", session);
  }

  lemma IntHeaderStrip(name: string, n: int)
    requires name != [] && !IsSpace(name[0])
    ensures Strip(IntHeaderLine(name, n)) == IntHeader(name, n)
  {
    var t := IntHeader(name, n);
    StrChars(n);
    assert Str(n)[|Str(n)| - 1] == t[|t| - 1];
    StripNewline(t);
  }

  lemma HeaderLineAt(lines: seq<string>, k: nat, j: nat)
    requires j + 1 < k
    ensures HeaderLines(lines, k)[j] == Strip(ReadLine(lines, j + 1))
  {
  }

  lemma HeaderNames()
    ensures Lower("CSeq") == "cseq" && Lower("Session") == "session"
  {
    var a := Lower("CSeq");
    assert a[0] == 'c' && a[1] == 's' && a[2] == 'e' && a[3] == 'q';
    var b := Lower("Session");
    assert b[0] == 's' && b[1] == 'e' && b[2] == 's' && b[3] == 's' && b[4] == 'i' && b[5] == 'o' && b[6] == 'n';
  }

  /** A `CSeq` line stores its value and sets the integer. */
  lemma CSeqHeader(h: Headers, n: int)
    ensures ':' in IntHeader("CSeq", n)
    ensures AddHeader(h, IntHeader("CSeq", n)) ==
              Success(h.(fields := h.fields["cseq" := " " + Str(n)], cseq := Some(n)))
  {
    IntHeaderLineParts("CSeq", n);
    HeaderNames();
    WireFacts.AddHeaderStep(h, IntHeader("CSeq", n));
  }

  /** A `Session` line stores its value and sets the integer. */
  lemma SessionHeader(h: Headers, n: int)
    ensures ':' in IntHeader("Session", n)
    ensures AddHeader(h, IntHeader("Session", n)) ==
              Success(h.(fields := h.fields["session" := " " + Str(n)], sessionId := Some(n)))
  {
    IntHeaderLineParts("Session", n);
    HeaderNames();
    WireFacts.AddHeaderStep(h, IntHeader("Session", n));
  }

  /** The two header lines give the header dictionary and both integers. */
  lemma ReplyHeaders(cseq: int, session: int)
    ensures AddHeaders(NoHeaders, [IntHeader("CSeq", cseq), IntHeader("Session", session)], 0) ==
              Success(Headers(map["cseq" := " " + Str(cseq), "session" := " " + Str(session)],
                              Some(cseq), Some(session)))
  {
    var hs := [IntHeader("CSeq", cseq), IntHeader("Session", session)];
    CSeqHeader(NoHeaders, cseq);
    var h1 := Headers(map["cseq" := " " + Str(cseq)], Some(cseq), None);
    SessionHeader(h1, session);
    var h2 := h1.(fields := h1.fields["session" := " " + Str(session)], sessionId := Some(session));
    assert AddHeaders(h2, hs, 2) == Success(h2);
    assert AddHeaders(h1, hs, 1) == Success(h2);
  }

  /** Such a reply is accepted with its numbers when the code is 200, and raises `RTSPException` otherwise. */
  lemma ReplyRoundTrip(code: int, message: string, cseq: int, session: int)
    ensures ResponseOf(Reply(code, message, cseq, session)) ==
              if code == Success200 then
                Success(Response(Version, code, message,
                                 map["cseq" := " " + Str(cseq), "session" := " " + Str(session)], cseq, session))
              else Failure(ServerError(message, code))
  {
    WireFacts.StatusLineRoundTrip(code, message);
    ReplyBlock(code, message, cseq, session);
    ReplyHeaders(cseq, session);
  }
}
