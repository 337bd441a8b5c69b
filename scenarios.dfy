/** Worked examples: a whole session on the control connection, a refused request, buffer insertions, one datagram. */
module Scenarios {
  import opened Wrappers
  import opened Wire
  import opened ReplyFacts
  import opened Rtp
  import opened RtpFacts
  import opened Playout
  import opened PlayoutFacts
  import opened Control
  import opened ControlFacts

  /** A 200 reply with `CSeq` and `Session` headers is accepted, whatever CSeq it carries, and names its session. */
  lemma OkAccepted(message: string, cseq: int, session: int)
    ensures ResponseOf(Reply(200, message, cseq, session)).Success?
    ensures ResponseOf(Reply(200, message, cseq, session)).value.sessionId == session
  {
    ReplyRoundTrip(200, message, cseq, session);
  }

  /** An accepted SETUP on a new connection: READY, CSeq 1, the session id the reply names, cursor 0. */
  lemma SetupAccepted(name: string, port: int, reply: seq<string>)
    requires ResponseOf(reply).Success?
    ensures var o := SetupStep(InitialConn, Some(name), port, reply);
            && o.result == Success(())
            && o.next == InitialConn.(cseq := Some(1), rtpPort := Some(port),
                                      sessionId := Some(ResponseOf(reply).value.sessionId), state := Ready,
                                      sent := [SetupRequest("SETUP", name, 1, Transport, port)],
                                      playout := InitialConn.playout.(cursor := 0))
  {
    SetupSpec(InitialConn, Some(name), port, reply);
  }

  /** An accepted PLAY in READY: PLAYING, with the next CSeq. */
  lemma PlayAccepted(c: Conn, name: string, reply: seq<string>, m: int, sid: int)
    requires c.state == Ready && c.cseq == Some(m - 1) && c.sessionId == Some(sid) && ResponseOf(reply).Success?
    ensures var o := PlayStep(c, Some(name), reply);
            && o.result == Success(())
            && o.next == c.(playEvent := false, cseq := Some(m),
                            sent := c.sent + [SessionRequest("PLAY", name, m, sid)],
                            state := Playing)
  {
    PlaySpec(c, Some(name), reply);
  }

  /** An accepted PAUSE in PLAYING: READY, with the next CSeq. */
  lemma PauseAccepted(c: Conn, name: string, reply: seq<string>, m: int, sid: int)
    requires c.state == Playing && c.cseq == Some(m - 1) && c.sessionId == Some(sid) && ResponseOf(reply).Success?
    ensures var o := PauseStep(c, Some(name), reply);
            && o.result == Success(())
            && o.next == c.(playEvent := true, cseq := Some(m),
                            sent := c.sent + [SessionRequest("PAUSE", name, m, sid)],
                            state := Ready)
  {
    PauseSpec(c, Some(name), reply);
  }

  /** An accepted TEARDOWN in READY: INIT, with the next CSeq and the stop flag untouched. */
  lemma TeardownAccepted(c: Conn, name: string, reply: seq<string>, m: int, sid: int)
    requires c.state == Ready && c.cseq == Some(m - 1) && c.sessionId == Some(sid) && ResponseOf(reply).Success?
    ensures var o := TeardownStep(c, Some(name), reply);
            && o.result == Success(())
            && o.next == c.(cseq := Some(m),
                            sent := c.sent + [SessionRequest("TEARDOWN", name, m, sid)],
                            state := Init,
                            signalTeardown := c.signalTeardown)
  {
    TeardownSpec(c, Some(name), reply);
  }

  /**
    SETUP, PLAY, PAUSE and TEARDOWN on a new connection, each answered by an
    accepted reply: the requests carry CSeq 1 to 4, the later three the
    session id of the SETUP reply (whatever the later replies say), and the
    connection ends in INIT still holding that id.
   */
  lemma WholeSession(name: string, port: int, sid: int, r1: seq<string>, r2: seq<string>, r3: seq<string>, r4: seq<string>)
    requires ResponseOf(r1).Success? && ResponseOf(r1).value.sessionId == sid
    requires ResponseOf(r2).Success? && ResponseOf(r3).Success? && ResponseOf(r4).Success?
    ensures var s := SetupStep(InitialConn, Some(name), port, r1);
            var p := PlayStep(s.next, Some(name), r2);
            var q := PauseStep(p.next, Some(name), r3);
            var t := TeardownStep(q.next, Some(name), r4);
            && s.result.Success? && p.result.Success? && q.result.Success? && t.result.Success?
            && t.next.sent == [SetupRequest("SETUP", name, 1, Transport, port),
                               SessionRequest("PLAY", name, 2, sid),
                               SessionRequest("PAUSE", name, 3, sid),
                               SessionRequest("TEARDOWN", name, 4, sid)]
            && t.next.state == Init && t.next.cseq == Some(4) && t.next.sessionId == Some(sid)
  {
    SetupAccepted(name, port, r1);
    var c1 := SetupStep(InitialConn, Some(name), port, r1).next;
    assert c1.sent == [SetupRequest("SETUP", name, 1, Transport, port)];
    PlayPauseTeardown(c1, name, sid, r2, r3, r4);
    AppendThree([], SetupRequest("SETUP", name, 1, Transport, port), SessionRequest("PLAY", name, 2, sid),
                SessionRequest("PAUSE", name, 3, sid), SessionRequest("TEARDOWN", name, 4, sid));
  }

  /** The rest of that session, from READY at CSeq 1. */
  lemma PlayPauseTeardown(c: Conn, name: string, sid: int, r2: seq<string>, r3: seq<string>, r4: seq<string>)
    requires c.state == Ready && c.cseq == Some(1) && c.sessionId == Some(sid)
    requires ResponseOf(r2).Success? && ResponseOf(r3).Success? && ResponseOf(r4).Success?
    ensures var p := PlayStep(c, Some(name), r2);
            var q := PauseStep(p.next, Some(name), r3);
            var t := TeardownStep(q.next, Some(name), r4);
            && p.result.Success? && q.result.Success? && t.result.Success?
            && t.next.sent == c.sent + [SessionRequest("PLAY", name, 2, sid), SessionRequest("PAUSE", name, 3, sid),
                                        SessionRequest("TEARDOWN", name, 4, sid)]
            && t.next.state == Init && t.next.cseq == Some(4) && t.next.sessionId == Some(sid)
  {
    PlayAccepted(c, name, r2, 2, sid);
    var c2 := PlayStep(c, Some(name), r2).next;
    PauseTeardown(c2, name, sid, r3, r4);
    AppendTwo(c.sent, SessionRequest("PLAY", name, 2, sid), SessionRequest("PAUSE", name, 3, sid),
              SessionRequest("TEARDOWN", name, 4, sid));
  }

  /** The end of that session, from PLAYING at CSeq 2. */
  lemma PauseTeardown(c: Conn, name: string, sid: int, r3: seq<string>, r4: seq<string>)
    requires c.state == Playing && c.cseq == Some(2) && c.sessionId == Some(sid)
    requires ResponseOf(r3).Success? && ResponseOf(r4).Success?
    ensures var q := PauseStep(c, Some(name), r3);
            var t := TeardownStep(q.next, Some(name), r4);
            && q.result.Success? && t.result.Success?
            && t.next.sent == c.sent + [SessionRequest("PAUSE", name, 3, sid), SessionRequest("TEARDOWN", name, 4, sid)]
            && t.next.state == Init && t.next.cseq == Some(4) && t.next.sessionId == Some(sid)
  {
    PauseAccepted(c, name, r3, 3, sid);
    var c3 := PauseStep(c, Some(name), r3).next;
    TeardownAccepted(c3, name, r4, 4, sid);
    AppendOne(c.sent, SessionRequest("PAUSE", name, 3, sid), SessionRequest("TEARDOWN", name, 4, sid));
  }

  lemma AppendOne<T>(xs: seq<T>, a: T, b: T)
    ensures xs + [a] + [b] == xs + [a, b]
  {
  }

  lemma AppendTwo<T>(xs: seq<T>, a: T, b: T, c: T)
    ensures xs + [a] + [b, c] == xs + [a, b, c]
  {
  }

  lemma AppendThree<T>(xs: seq<T>, a: T, b: T, c: T, d: T)
    ensures xs + [a] + [b, c, d] == xs + [a, b, c, d]
  {
  }

  /** A refused PLAY raises the server's code and message, stays in READY, and has used up a CSeq. */
  lemma RefusedPlay(c: Conn, name: string)
    requires c.state == Ready && Wired(c)
    ensures var o := PlayStep(c, Some(name), Reply(454, "Session Not Found", 0, 0));
            && o.result == Failure(ServerError("Session Not Found", 454))
            && o.next.state == Ready && o.next.cseq == Some(c.cseq.value + 1)
            && o.next.sent == c.sent + [SessionRequest("PLAY", name, c.cseq.value + 1, c.sessionId.value)]
  {
    ReplyRoundTrip(454, "Session Not Found", 0, 0);
    PlaySpec(c, Some(name), Reply(454, "Session Not Found", 0, 0));
  }

  function F(n: int): Frame {
    Frame(26, 0, n, 0, [])
  }

  /** Frames 5, 3, 4 arriving in that order end up sorted. */
  lemma InsertOutOfOrder()
    ensures Inserted(Inserted(Inserted([], F(5)), F(3)), F(4)) == [F(3), F(4), F(5)]
  {
    InsertedNoGreater([], F(5));
    InsertedBeforeGreater([F(5)], F(3), 0);
    InsertedBeforeGreater([F(3), F(5)], F(4), 1);
  }

  /** Frames 3 then 5: the newer frame lands before the last one and the buffer is out of order. */
  lemma InsertNewest()
    ensures Inserted([F(3)], F(5)) == [F(5), F(3)]
    ensures !Sorted(Inserted([F(3)], F(5)))
  {
    InsertedNoGreater([F(3)], F(5));
    assert Inserted([F(3)], F(5))[0].seqNum > Inserted([F(3)], F(5))[1].seqNum;
  }

  /** Frame 2 is behind cursor 5: the tick pops it, plays frame 5 and pops that one too. */
  lemma EmitAfterStale(st: Stats)
    ensures Tick(Playout([F(2), F(5)], 5, true, st), false)
            == TickResult(Emitted(F(5)), Playout([], 6, true, Record(st, 5)))
  {
    var p := Playout([F(2), F(5)], 5, true, st);
    TickSpec(p, false);
    TickFirstCurrent(p);
    assert FirstGreater(p.buffer, 4, 0) == Some(1);
  }

  /** Frame 7 is ahead of cursor 5 but follows the stale frame 2: the tick pops both and plays nothing. */
  lemma SkipDropsAhead(st: Stats)
    ensures Tick(Playout([F(2), F(7)], 5, true, st), false) == TickResult(Skipped, Playout([], 6, true, st))
  {
    var p := Playout([F(2), F(7)], 5, true, st);
    TickSpec(p, false);
    TickFirstCurrent(p);
    assert FirstGreater(p.buffer, 4, 0) == Some(1);
  }

  /** A JPEG datagram with the marker set, sequence number 5 and timestamp 100. */
  lemma DecodeJpeg(payload: seq<Byte>)
    ensures Decode([0x80, 0x9A, 0x00, 0x05, 0x00, 0x00, 0x00, 0x64, 0x12, 0x34, 0x56, 0x78] + payload)
            == Some(Frame(26, 1, 5, 100, payload))
  {
    var data: seq<Byte> := [0x80, 0x9A, 0x00, 0x05, 0x00, 0x00, 0x00, 0x64, 0x12, 0x34, 0x56, 0x78] + payload;
    DecodeFields(data);
    DecodePayload(data);
    assert data[HeaderSize..] == payload;
  }
}
