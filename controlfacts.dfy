/** Properties of the connection's control steps: the CSeq counter, the request text, and the state machine. */
module ControlFacts {
  import opened Wrappers
  import opened PyStr
  import opened Wire
  import opened RequestFacts
  import opened Playout
  import opened PlayoutFacts
  import opened Control

  /**
    The first request after `cseq` is reset: a SETUP goes out as
    `SETUP <name> RTSP/1.0` with `CSeq: 1` and the transport and client port,
    and reads back as exactly that; nothing else changes but the counter.
   */
  lemma SendFirstSetup(c: Conn, name: string, transport: string, port: int)
    requires c.cseq.None?
    requires ' ' !in name && '\n' !in name && '\n' !in transport
    ensures var o := SendStep(c, Triple("SETUP", transport, port), Some(name));
            && o.result.Success?
            && o.next == c.(cseq := Some(1), sent := o.next.sent)
            && |o.next.sent| == |c.sent| + 1 && o.next.sent[..|c.sent|] == c.sent
            && DecodeRequest(o.next.sent[|c.sent|]) ==
                 Some(RequestText("SETUP", name, Version,
                                  [("CSeq", " " + Str(1)), ("Transport", " " + transport + "; client_port= " + Str(port))]))
  {
    SetupRequestDecodes("SETUP", name, 1, transport, port);
    var o := SendStep(c, Triple("SETUP", transport, port), Some(name));
    assert o.next.sent == c.sent + [SetupRequest("SETUP", name, 1, transport, port)];
  }

  /** A first command other than SETUP sends nothing, yet sets `cseq` to 1 unless indexing it fails at once. */
  lemma SendFirstOther(c: Conn, command: Command, videoName: Option<string>)
    requires c.cseq.None?
    requires !(command.Triple? && command.req == "SETUP")
    ensures var o := SendStep(c, command, videoName);
            && o.next.sent == c.sent
            && o.next == c.(cseq := o.next.cseq)
            && o.next.cseq == (if command == Name("") then None else Some(1))
            && (o.result.Success? <==> command.Triple? || |command.text| >= 3)
  {
  }

  /**
    Every later request adds exactly 1 to `cseq` and, once a session id is
    known, goes out as `<req> <name> RTSP/1.0` with `Cseq` and `Session`
    headers that read back as the counter and the id.
   */
  lemma SendLater(c: Conn, req: string, name: string)
    requires c.cseq.Some? && c.sessionId.Some?
    requires ' ' !in req && '\n' !in req && ' ' !in name && '\n' !in name
    ensures var o := SendStep(c, Name(req), Some(name));
            var n := c.cseq.value + 1;
            && o.result.Success?
            && o.next == c.(cseq := Some(n), sent := o.next.sent)
            && |o.next.sent| == |c.sent| + 1 && o.next.sent[..|c.sent|] == c.sent
            && DecodeRequest(o.next.sent[|c.sent|]) ==
                 Some(RequestText(req, name, Version, [("Cseq", " " + Str(n)), ("Session", " " + Str(c.sessionId.value))]))
            && PyInt(" " + Str(n)) == Some(n)
            && PyInt(" " + Str(c.sessionId.value)) == Some(c.sessionId.value)
  {
    var n := c.cseq.value + 1;
    SessionRequestDecodes(req, name, n, c.sessionId.value);
    var o := SendStep(c, Name(req), Some(name));
    assert o.next.sent == c.sent + [SessionRequest(req, name, n, c.sessionId.value)];
  }

  /** Whatever the command, a send changes only `cseq` and the log, appends at most one request, and counts by one. */
  lemma SendFrame(c: Conn, command: Command, videoName: Option<string>)
    ensures var o := SendStep(c, command, videoName);
            && o.next == c.(cseq := o.next.cseq, sent := o.next.sent)
            && |c.sent| <= |o.next.sent| <= |c.sent| + 1 && o.next.sent[..|c.sent|] == c.sent
            && (c.cseq.Some? ==> o.next.cseq == Some(c.cseq.value + 1))
            && (c.cseq.Some? && c.sessionId.None? ==> o.result == Failure(MissingAttribute("session_id")))
            && (c.cseq.None? ==> o.next.cseq == (if command == Name("") then None else Some(1)))
  {
  }

  /**
    A connection outside INIT has a counter and a session id: the reachable
    states in which PLAY, PAUSE and TEARDOWN can send.
   */
  predicate Wired(c: Conn) {
    c.state != Init ==> c.cseq.Some? && c.sessionId.Some?
  }

  /** A new connection is in INIT with no counter, no session id, nothing sent, and the statistics invariant. */
  lemma InitialSpec()
    ensures Wired(InitialConn) && Inv(InitialConn.playout)
    ensures InitialConn.state == Init && InitialConn.cseq.None? && InitialConn.sent == []
  {
  }

  /** `setup` keeps `Wired` and re-establishes the statistics invariant by its reset. */
  lemma SetupKeeps(c: Conn, videoName: Option<string>, port: int, reply: seq<string>)
    requires Wired(c) && Inv(c.playout)
    ensures Wired(SetupStep(c, videoName, port, reply).next)
    ensures Inv(SetupStep(c, videoName, port, reply).next.playout)
  {
    ResetInv(c.playout.buffer, 0, c.playout.enabled);
  }

  /** `play` keeps `Wired` and leaves the jitter buffer alone. */
  lemma PlayKeeps(c: Conn, videoName: Option<string>, reply: seq<string>)
    requires Wired(c)
    ensures Wired(PlayStep(c, videoName, reply).next)
    ensures PlayStep(c, videoName, reply).next.playout == c.playout
  {
  }

  /** `pause` keeps `Wired` and leaves the jitter buffer alone. */
  lemma PauseKeeps(c: Conn, videoName: Option<string>, reply: seq<string>)
    requires Wired(c)
    ensures Wired(PauseStep(c, videoName, reply).next)
    ensures PauseStep(c, videoName, reply).next.playout == c.playout
  {
  }

  /** `teardown` keeps `Wired` and leaves the jitter buffer alone. */
  lemma TeardownKeeps(c: Conn, videoName: Option<string>, reply: seq<string>)
    requires Wired(c)
    ensures Wired(TeardownStep(c, videoName, reply).next)
    ensures TeardownStep(c, videoName, reply).next.playout == c.playout
  {
  }

  /** Outside its state each operation sends nothing, changes nothing and raises nothing. */
  lemma OutsideStateNoOp(c: Conn, videoName: Option<string>, port: int, reply: seq<string>)
    ensures c.state != Init ==> SetupStep(c, videoName, port, reply) == Outcome(c, Success(()))
    ensures c.state != Ready ==> PlayStep(c, videoName, reply) == Outcome(c, Success(()))
    ensures c.state != Playing ==> PauseStep(c, videoName, reply) == Outcome(c, Success(()))
    ensures c.state == Init ==> TeardownStep(c, videoName, reply) == Outcome(c, Success(()))
  {
  }

  /**
    `setup()` in INIT: clears `signalTeardown`, restarts the counter so the
    SETUP carries CSeq 1, and records the RTP port. It succeeds exactly when
    the session has a name and the reply is accepted; then it moves to READY
    with the reply's session id and resets the cursor to 0 and the counters,
    and otherwise it stays in INIT with the session id and buffer untouched.
   */
  lemma SetupSpec(c: Conn, videoName: Option<string>, port: int, reply: seq<string>)
    requires c.state == Init
    ensures var o := SetupStep(c, videoName, port, reply);
            && o.next.cseq == Some(1) && o.next.rtpPort == Some(port)
            && !o.next.signalTeardown && o.next.playEvent == c.playEvent
            && o.next.sent == c.sent + (if videoName.Some? then [SetupRequest("SETUP", videoName.value, 1, Transport, port)] else [])
            && (o.result.Success? <==> videoName.Some? && ResponseOf(reply).Success?)
            && (o.result.Success? ==>
                  && o.next.state == Ready
                  && o.next.sessionId == Some(ResponseOf(reply).value.sessionId)
                  && o.next.playout == c.playout.(cursor := 0, stats := ResetStats))
            && (o.result.Failure? ==>
                  && o.next.state == Init && o.next.sessionId == c.sessionId && o.next.playout == c.playout
                  && o.result.error == (if videoName.None? then NotAString else ResponseOf(reply).error))
  {
  }

  /**
    `play()` in READY clears the stop event, sends PLAY with the next CSeq,
    and moves to PLAYING exactly when the session has a name and the reply is
    accepted; a failed reply leaves it in READY with the counter advanced.
   */
  lemma PlaySpec(c: Conn, videoName: Option<string>, reply: seq<string>)
    requires c.state == Ready && Wired(c)
    ensures var o := PlayStep(c, videoName, reply);
            var n := c.cseq.value + 1;
            var ok := videoName.Some? && ResponseOf(reply).Success?;
            && (o.result.Success? <==> ok)
            && o.next == c.(playEvent := false, cseq := Some(n),
                            sent := c.sent + (if videoName.Some? then [SessionRequest("PLAY", videoName.value, n, c.sessionId.value)] else []),
                            state := if ok then Playing else Ready)
            && (!ok ==> o.result.error == (if videoName.None? then NotAString else ResponseOf(reply).error))
  {
  }

  /** `pause()` in PLAYING sets the stop event, sends PAUSE with the next CSeq, and moves to READY when the reply is accepted. */
  lemma PauseSpec(c: Conn, videoName: Option<string>, reply: seq<string>)
    requires c.state == Playing && Wired(c)
    ensures var o := PauseStep(c, videoName, reply);
            var n := c.cseq.value + 1;
            var ok := videoName.Some? && ResponseOf(reply).Success?;
            && (o.result.Success? <==> ok)
            && o.next == c.(playEvent := true, cseq := Some(n),
                            sent := c.sent + (if videoName.Some? then [SessionRequest("PAUSE", videoName.value, n, c.sessionId.value)] else []),
                            state := if ok then Ready else Playing)
            && (!ok ==> o.result.error == (if videoName.None? then NotAString else ResponseOf(reply).error))
  {
  }

  /**
    `teardown()` in READY or PLAYING sends TEARDOWN with the next CSeq and,
    when the reply is accepted, returns to INIT, setting `signalTeardown` if
    it was PLAYING; the session id is kept.
   */
  lemma TeardownSpec(c: Conn, videoName: Option<string>, reply: seq<string>)
    requires (c.state == Ready || c.state == Playing) && Wired(c)
    ensures var o := TeardownStep(c, videoName, reply);
            var n := c.cseq.value + 1;
            var ok := videoName.Some? && ResponseOf(reply).Success?;
            && (o.result.Success? <==> ok)
            && o.next == c.(cseq := Some(n),
                            sent := c.sent + (if videoName.Some? then [SessionRequest("TEARDOWN", videoName.value, n, c.sessionId.value)] else []),
                            state := if ok then Init else c.state,
                            signalTeardown := c.signalTeardown || (ok && c.state == Playing))
            && (!ok ==> o.result.error == (if videoName.None? then NotAString else ResponseOf(reply).error))
  {
  }

  /** `close()` sets `signalTeardown` in every state and changes nothing else. */
  lemma CloseSpec(c: Conn)
    ensures CloseStep(c).signalTeardown && CloseStep(c).state == c.state
    ensures CloseStep(c).(signalTeardown := c.signalTeardown) == c
  {
  }
}
