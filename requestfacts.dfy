/** The request text read back: a reader that splits it at its newlines, colons and spaces recovers its parts. */
module RequestFacts {
  import opened Wrappers
  import opened PyStr
  import opened PyStrFacts
  import opened Wire

  /** Text of three lines and the blank line that ends a request. */
  function ThreeLineText(a: string, b: string, c: string): string {
    a + ['\n'] + (b + ['\n'] + (c + ['\n'] + ['\n']))
  }

  lemma Assoc(a: string, b: string, c: string)
    ensures a + b + c == a + (b + c)
  {
  }

  /** The same text written line after line, as the request builders write it. */
  lemma ThreeLineTextFlat(a: string, b: string, c: string)
    ensures a + "\n" + b + "\n" + c + "\n\n" == ThreeLineText(a, b, c)
  {
    assert "\n\n" == ['\n'] + ['\n'];
    assert "\n" == ['\n'];
    var nl := ['\n'];
    var t2 := c + nl + nl;
    Assoc(c, nl, nl);
    Assoc(a + nl + b + nl, c, nl + nl);
    Assoc(a + nl + b, nl, c + (nl + nl));
    Assoc(a + nl, b, nl + (c + (nl + nl)));
    Assoc(a, nl, b + (nl + (c + (nl + nl))));
    Assoc(b, nl, c + (nl + nl));
  }

  /** The end of a request: a line, then the blank line. */
  lemma SplitLastLine(c: string)
    requires '\n' !in c
    ensures SplitAll(c + ['\n'] + ['\n'], '\n') == [c, "", ""]
  {
    var nl := ['\n'];
    assert nl == "" + nl + "";
    SplitAllCons("", '\n', "");
    assert SplitAll("", '\n') == [""];
    assert SplitAll(nl, '\n') == ["", ""];
    SplitAllCons(c, '\n', nl);
  }

  lemma SplitLastLines(b: string, c: string)
    requires '\n' !in b && '\n' !in c
    ensures SplitAll(b + ['\n'] + (c + ['\n'] + ['\n']), '\n') == [b, c, "", ""]
  {
    SplitLastLine(c);
    SplitAllCons(b, '\n', c + ['\n'] + ['\n']);
  }

  /** Such text splits at its newlines into its three lines and two empty ones. */
  lemma ThreeLines(a: string, b: string, c: string)
    requires '\n' !in a && '\n' !in b && '\n' !in c
    ensures SplitAll(ThreeLineText(a, b, c), '\n') == [a, b, c, "", ""]
  {
    SplitLastLines(b, c);
    SplitAllCons(a, '\n', b + ['\n'] + (c + ['\n'] + ['\n']));
  }

  /** The Request-Line `<command> <uri> RTSP/1.0` splits back into its three parts. */
  lemma RequestLineParts(command: string, uri: string)
    requires ' ' !in command && ' ' !in uri
    ensures SplitMax(command + " " + uri + " " + Version, ' ', 2) == [command, uri, Version]
  {
    assert command + " " + uri + " " + Version == command + [' '] + (uri + [' '] + Version);
    SplitMaxCons(command, ' ', uri + [' '] + Version, 2);
    SplitMaxCons(uri, ' ', Version, 1);
  }

  /** A header line splits at the colon after its name. */
  lemma HeaderParts(name: string, value: string)
    requires ':' !in name
    ensures SplitMax(name + ":" + value, ':', 1) == [name, value]
  {
    assert name + ":" + value == name + [':'] + value;
    SplitMaxCons(name, ':', value, 1);
  }

  /** A header line before the blank line: its name and value, then the rest. */
  lemma DecodeHeadersCons(name: string, value: string, rest: seq<string>)
    requires ':' !in name
    ensures DecodeHeaders([name + ":" + value] + rest) ==
              match DecodeHeaders(rest)
              case None => None
              case Some(hs) => Some([(name, value)] + hs)
  {
    var line := name + ":" + value;
    HeaderParts(name, value);
    assert line[|name|] == ':';
    assert ([line] + rest)[1..] == rest;
  }

  /** Two header lines followed by the blank line that ends them. */
  lemma TwoHeaders(n1: string, v1: string, n2: string, v2: string)
    requires ':' !in n1 && ':' !in n2
    ensures DecodeHeaders([n1 + ":" + v1, n2 + ":" + v2, "", ""]) == Some([(n1, v1), (n2, v2)])
  {
    var l1, l2 := n1 + ":" + v1, n2 + ":" + v2;
    assert DecodeHeaders(["", ""]) == Some([]);
    DecodeHeadersCons(n2, v2, ["", ""]);
    assert [l2] + ["", ""] == [l2, "", ""];
    DecodeHeadersCons(n1, v1, [l2, "", ""]);
    assert [l1] + [l2, "", ""] == [l1, l2, "", ""];
    assert [(n2, v2)] + [] == [(n2, v2)];
    assert [(n1, v1)] + [(n2, v2)] == [(n1, v1), (n2, v2)];
  }

  /** A request of a Request-Line and two header lines reads back as its parts. */
  lemma DecodeTwoHeaderRequest(command: string, uri: string, n1: string, v1: string, n2: string, v2: string)
    requires ' ' !in command && '\n' !in command && ' ' !in uri && '\n' !in uri
    requires ':' !in n1 && '\n' !in n1 && '\n' !in v1 && ':' !in n2 && '\n' !in n2 && '\n' !in v2
    ensures DecodeRequest(ThreeLineText(command + " " + uri + " " + Version, n1 + ":" + v1, n2 + ":" + v2))
            == Some(RequestText(command, uri, Version, [(n1, v1), (n2, v2)]))
  {
    var l0, l1, l2 := command + " " + uri + " " + Version, n1 + ":" + v1, n2 + ":" + v2;
    ThreeLines(l0, l1, l2);
    RequestLineParts(command, uri);
    TwoHeaders(n1, v1, n2, v2);
    assert [l0, l1, l2, "", ""][1..] == [l1, l2, "", ""];
  }

  /** The first request, written as a Request-Line and two header lines. */
  lemma SetupRequestLines(req: string, name: string, cseq: int, transport: string, port: int)
    ensures SetupRequest(req, name, cseq, transport, port) ==
              ThreeLineText(req + " " + name + " " + Version, "CSeq" + ":" + (" " + Str(cseq)),
                            "Transport" + ":" + (" " + transport + "; client_port= " + Str(port)))
  {
    ThreeLineTextFlat(req + " " + name + " " + Version, "CSeq" + ":" + (" " + Str(cseq)),
                      "Transport" + ":" + (" " + transport + "; client_port= " + Str(port)));
    var a, s1, t, s2 := req + " " + name + " ", Str(cseq), transport, Str(port);
    var x := a + "RTSP/1.0";
    assert x == req + " " + name + " " + Version;
    assert "RTSP/1.0\n" == "RTSP/1.0" + "\n";
    Assoc(a, "RTSP/1.0", "\n");
    var h1 := "CSeq" + ":" + (" " + s1);
    assert "CSeq: " == "CSeq" + ":" + " ";
    assert "CSeq: " + s1 == h1;
    var p1 := x + "\n" + h1;
    Assoc(x + "\n", "CSeq: ", s1);
    assert a + "RTSP/1.0\n" + "CSeq: " + s1 == p1;
    var h2 := "Transport" + ":" + (" " + t + "; client_port= " + s2);
    TransportTail(t, s2);
    Regroup(p1, "\nTransport: ", t, "; client_port= ", s2);
    Assoc(p1, "\n", h2);
  }

  /** The text after the `CSeq` line: a newline and the `Transport` line. */
  lemma TransportTail(t: string, s2: string)
    ensures "\nTransport: " + t + "; client_port= " + s2 == "\n" + ("Transport" + ":" + (" " + t + "; client_port= " + s2))
  {
    assert "\nTransport: " == "\n" + ("Transport" + ":" + " ");
  }

  lemma Regroup(p: string, a: string, b: string, c: string, d: string)
    ensures p + a + b + c + d == p + (a + b + c + d)
  {
  }

  /** A later request, written as a Request-Line and two header lines. */
  lemma SessionRequestLines(req: string, name: string, cseq: int, session: int)
    ensures SessionRequest(req, name, cseq, session) ==
              ThreeLineText(req + " " + name + " " + Version, "Cseq" + ":" + (" " + Str(cseq)),
                            "Session" + ":" + (" " + Str(session)))
  {
    ThreeLineTextFlat(req + " " + name + " " + Version, "Cseq" + ":" + (" " + Str(cseq)),
                      "Session" + ":" + (" " + Str(session)));
    var a, s1, s2 := req + " " + name + " ", Str(cseq), Str(session);
    var x := a + "RTSP/1.0";
    assert x == req + " " + name + " " + Version;
    assert "RTSP/1.0\n" == "RTSP/1.0" + "\n";
    Assoc(a, "RTSP/1.0", "\n");
    var h1 := "Cseq" + ":" + (" " + s1);
    assert "Cseq: " == "Cseq" + ":" + " ";
    assert "Cseq: " + s1 == h1;
    var p1 := x + "\n" + h1;
    Assoc(x + "\n", "Cseq: ", s1);
    assert a + "RTSP/1.0\n" + "Cseq: " + s1 == p1;
    var h2 := "Session" + ":" + (" " + s2);
    assert "\nSession: " == "\n" + "Session: ";
    assert "Session: " + s2 == h2;
    assert p1 + "\nSession: " + s2 == p1 + "\n" + h2;
  }

  /** The first request reads back as its Request-Line, `CSeq` and `Transport` headers; `int()` reads the counter back. */
  lemma SetupRequestDecodes(req: string, name: string, cseq: int, transport: string, port: int)
    requires ' ' !in req && '\n' !in req && ' ' !in name && '\n' !in name && '\n' !in transport
    ensures DecodeRequest(SetupRequest(req, name, cseq, transport, port)) ==
              Some(RequestText(req, name, Version,
                               [("CSeq", " " + Str(cseq)), ("Transport", " " + transport + "; client_port= " + Str(port))]))
    ensures PyInt(" " + Str(cseq)) == Some(cseq)
  {
    SetupRequestLines(req, name, cseq, transport, port);
    StrChars(cseq);
    StrChars(port);
    DecodeTwoHeaderRequest(req, name, "CSeq", " " + Str(cseq), "Transport", " " + transport + "; client_port= " + Str(port));
    IntStrRoundTrip(" ", cseq);
  }

  /** A later request reads back as its Request-Line, `Cseq` and `Session` headers; `int()` reads both numbers back. */
  lemma SessionRequestDecodes(req: string, name: string, cseq: int, session: int)
    requires ' ' !in req && '\n' !in req && ' ' !in name && '\n' !in name
    ensures DecodeRequest(SessionRequest(req, name, cseq, session)) ==
              Some(RequestText(req, name, Version, [("Cseq", " " + Str(cseq)), ("Session", " " + Str(session))]))
    ensures PyInt(" " + Str(cseq)) == Some(cseq) && PyInt(" " + Str(session)) == Some(session)
  {
    SessionRequestLines(req, name, cseq, session);
    StrChars(cseq);
    StrChars(session);
    DecodeTwoHeaderRequest(req, name, "Cseq", " " + Str(cseq), "Session", " " + Str(session));
    IntStrRoundTrip(" ", cseq);
    IntStrRoundTrip(" ", session);
  }
}
