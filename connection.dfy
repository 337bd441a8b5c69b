/**
  `Connection` from rtsp.py as a class over its own fields. Each method does
  what the Python method does, step by step, and is proved to leave the
  fields as the corresponding step of `Control` or `Playout` says. Sockets
  become the `sent` log and the `reply` lines a method reads; the two
  background loops become one call per iteration (`OnDatagram`,
  `PlaybackTick`).
 */
module Rtsp {
  import opened Wrappers
  import opened Wire
  import opened Rtp
  import opened Playout
  import opened Control

  class Connection {
    var state: State
    var cseq: Option<int>
    var sessionId: Option<int>
    var rtpPort: Option<int>
    /** The requests written to the control socket, oldest first. */
    var sent: seq<string>
    var playEvent: bool
    var signalTeardown: bool

    var buffer: seq<Frame>
    var playbackSeqNo: int
    var enableBufferPlayout: bool

    /** The counters `out_of_order_pkts`, `total_pkts`, `lost_pkts`, `frame_seqnum`, `max_seqnum`, `early_packets`, `late_packets`. */
    var stats: Stats

    /** The jitter-buffer fields as a `Playout` value. */
    ghost function Jitter(): Playout
      reads this
    {
      Playout(buffer, playbackSeqNo, enableBufferPlayout, stats)
    }

    /** All fields as a `Conn` value. */
    ghost function Model(): Conn
      reads this
    {
      Conn(state, cseq, sessionId, rtpPort, sent, playEvent, signalTeardown, Jitter())
    }

    /** `Connection(session, address)`; opening the control socket is not modelled. */
    constructor()
      ensures Model() == InitialConn
    {
      state, cseq, sessionId, rtpPort, sent := Init, None, None, None, [];
      playEvent, signalTeardown := false, false;
      buffer, playbackSeqNo, enableBufferPlayout := [], -1, false;
      stats := ResetStats;
    }

    /** `send_request(command)`; `videoName` is the session's `video_name`. */
    method SendRequest(command: Command, videoName: Option<string>) returns (r: Result<(), Error>)
      modifies this
      ensures Outcome(Model(), r) == SendStep(old(Model()), command, videoName)
    {
      if cseq.None? {
        match command {
          case Triple(req, transport, port) =>
            cseq := Some(1);
            if req != "SETUP" {
              return Success(());
            }
            if videoName.None? {
              return Failure(NotAString);
            }
            sent := sent + [SetupRequest(req, videoName.value, cseq.value, transport, port)];
            return Success(());
          case Name(text) =>
            if |text| == 0 {
              return Failure(NoSuchIndex);
            }
            cseq := Some(1);
            if |text| < 3 {
              return Failure(NoSuchIndex);
            }
            return Success(());
        }
      } else {
        cseq := Some(cseq.value + 1);
        if sessionId.None? {
          return Failure(MissingAttribute("session_id"));
        }
        match command {
          case Triple(_, _, _) =>
            return Failure(NotAString);
          case Name(req) =>
            if videoName.None? {
              return Failure(NotAString);
            }
            sent := sent + [SessionRequest(req, videoName.value, cseq.value, sessionId.value)];
            return Success(());
        }
      }
    }

    /** The flag part of `start_rtp_timer`: a fresh, cleared stop event. */
    method StartRtpTimer()
      modifies this
      ensures Model() == old(Model()).(playEvent := false)
    {
      playEvent := false;
    }

    /** `stop_rtp_timer`. */
    method StopRtpTimer()
      modifies this
      ensures Model() == old(Model()).(playEvent := true)
    {
      playEvent := true;
    }

    /** `setup()`; `port` is the number the operating system gave the RTP socket, `reply` the server's answer. */
    method Setup(videoName: Option<string>, port: int, reply: seq<string>) returns (r: Result<(), Error>)
      modifies this
      ensures Outcome(Model(), r) == SetupStep(old(Model()), videoName, port, reply)
    {
      if state != Init {
        return Success(());
      }
      Prepare(port);
      r := SendRequest(Triple("SETUP", Transport, port), videoName);
      if r.Failure? {
        return;
      }
      var resp := ReadResponse(reply);
      if resp.Failure? {
        return Failure(resp.error);
      }
      Established(resp.value.sessionId);
      return Success(());
    }

    /** The assignments of `setup()` before its request: the stop flag, the counter and the RTP port. */
    method Prepare(port: int)
      modifies this
      ensures Model() == old(Model()).(signalTeardown := false, cseq := None, rtpPort := Some(port))
    {
      signalTeardown := false;
      cseq := None;
      rtpPort := Some(port);
    }

    /** The assignments of `setup()` after an accepted reply: session id, state, cursor and counters. */
    method Established(id: int)
      modifies this
      ensures Model() == old(Model()).(sessionId := Some(id), state := Ready,
                                       playout := old(Jitter()).(cursor := 0, stats := ResetStats))
    {
      sessionId := Some(id);
      state := Ready;
      playbackSeqNo := 0;
      stats := ResetStats;
    }

    /** `play()`. */
    method Play(videoName: Option<string>, reply: seq<string>) returns (r: Result<(), Error>)
      modifies this
      ensures Outcome(Model(), r) == PlayStep(old(Model()), videoName, reply)
    {
      if state != Ready {
        return Success(());
      }
      StartRtpTimer();
      ghost var sent := SendStep(Model(), Name("PLAY"), videoName);
      r := SendRequest(Name("PLAY"), videoName);
      if r.Failure? {
        return;
      }
      assert Model() == sent.next;
      var resp := ReadResponse(reply);
      if resp.Failure? {
        return Failure(resp.error);
      }
      MoveTo(Playing);
    }

    /** `pause()`. */
    method Pause(videoName: Option<string>, reply: seq<string>) returns (r: Result<(), Error>)
      modifies this
      ensures Outcome(Model(), r) == PauseStep(old(Model()), videoName, reply)
    {
      if state != Playing {
        return Success(());
      }
      StopRtpTimer();
      ghost var sent := SendStep(Model(), Name("PAUSE"), videoName);
      r := SendRequest(Name("PAUSE"), videoName);
      if r.Failure? {
        return;
      }
      assert Model() == sent.next;
      var resp := ReadResponse(reply);
      if resp.Failure? {
        return Failure(resp.error);
      }
      MoveTo(Ready);
    }

    /** The state change an accepted reply makes. */
    method MoveTo(next: State)
      modifies this
      ensures Model() == old(Model()).(state := next)
    {
      state := next;
    }

    /** `teardown()`; closing the RTP socket from READY is not modelled. */
    method Teardown(videoName: Option<string>, reply: seq<string>) returns (r: Result<(), Error>)
      modifies this
      ensures Outcome(Model(), r) == TeardownStep(old(Model()), videoName, reply)
    {
      if state != Ready && state != Playing {
        return Success(());
      }
      ghost var sent := SendStep(old(Model()), Name("TEARDOWN"), videoName);
      r := SendRequest(Name("TEARDOWN"), videoName);
      if r.Failure? {
        return;
      }
      assert Model() == sent.next && state == old(state);
      var resp := ReadResponse(reply);
      if resp.Failure? {
        return Failure(resp.error);
      }
      Ended();
    }

    /** The assignments of `teardown()` after an accepted reply: stop the loops of a playing stream, back to INIT. */
    method Ended()
      modifies this
      ensures Model() == (if old(state) == Playing then old(Model()).(signalTeardown := true) else old(Model())).(state := Init)
    {
      if state == Playing {
        signalTeardown := true;
      }
      state := Init;
    }

    /** `close()`; shutting the control socket down is not modelled. */
    method Close()
      modifies this
      ensures Model() == CloseStep(old(Model()))
    {
      signalTeardown := true;
    }

    /** `insert_frame(frame)`: scan for the first greater sequence number and insert there, else at `len - 1`. */
    method InsertFrame(frame: Frame)
      modifies this
      ensures Model() == old(Model()).(playout := old(Jitter()).(buffer := Inserted(old(buffer), frame)))
    {
      var seqNo := frame.seqNum;
      for e := 0 to |buffer|
        invariant buffer == old(buffer)
        invariant FirstGreater(buffer, seqNo, e) == FirstGreater(buffer, seqNo, 0)
      {
        if buffer[e].seqNum > seqNo {
          buffer := PyInsert(buffer, e, frame);
          return;
        }
      }
      buffer := PyInsert(buffer, |buffer| - 1, frame);
    }

    /** One pass of the `listen_for_rtp` loop for a received datagram `data`. */
    method OnDatagram(data: seq<Byte>) returns (a: Arrival)
      modifies this
      ensures ArrivalResult(a, Jitter()) == Receive(old(Jitter()), data)
      ensures Model() == old(Model()).(playout := Jitter())
    {
      if |data| == 0 {
        return Ignored;
      }
      if |data| < 8 {
        return Truncated;
      }
      var header := data[..if |data| < HeaderSize then |data| else HeaderSize];
      var payload := From(data, HeaderSize);
      var marker := (header[1] >> 7) as int;
      var payloadType := (header[1] & 0x7F) as int;
      var seqNum := (((header[2] as bv16) << 8) | (header[3] as bv16)) as int;
      var timestamp := (((header[4] as bv32) << 24) | ((header[5] as bv32) << 16)
                        | ((header[6] as bv32) << 8) | (header[7] as bv32)) as int;
      var frame := Frame(payloadType, marker, seqNum, timestamp, payload);
      assert frame == Decode(data).value;
      if seqNum < playbackSeqNo {
        return Late(frame);
      }
      InsertFrame(frame);
      return Buffered(frame);
    }

    /** The inner loop of `process_frames`: pop frames while the current one is behind the cursor. */
    method PopStale(first: Frame) returns (frame: Frame)
      modifies this
      ensures (frame, buffer) == DropStale(first, old(buffer), playbackSeqNo)
      ensures Model() == old(Model()).(playout := old(Jitter()).(buffer := buffer))
    {
      frame := first;
      while frame.seqNum < playbackSeqNo && |buffer| != 0
        invariant DropStale(frame, buffer, playbackSeqNo) == DropStale(first, old(buffer), playbackSeqNo)
        invariant Model() == old(Model()).(playout := old(Jitter()).(buffer := buffer))
        decreases |buffer|
      {
        frame := buffer[0];
        buffer := buffer[1..];
      }
    }

    /** The statistics update of `process_frames` after the frame numbered `num` was played. */
    method RecordPlayed(num: int)
      modifies this
      ensures Model() == old(Model()).(playout := old(Jitter()).(stats := Record(old(stats), num)))
    {
      var outOfOrder, late, early := stats.outOfOrder, stats.late, stats.early;
      if stats.frameSeqnum + 1 != num {
        outOfOrder := outOfOrder + 1;
        if stats.frameSeqnum + 1 > num {
          late := late + 1;
        } else {
          early := early + 1;
        }
      }
      var maxSeqnum := if num > stats.maxSeqnum then num else stats.maxSeqnum;
      stats := stats.(total := stats.total + 1, outOfOrder := outOfOrder, late := late, early := early,
                      frameSeqnum := num, maxSeqnum := maxSeqnum);
    }

    /**
      One iteration of the `process_frames` loop. An `Emitted` outcome is the
      frame the loop hands to `session.process_frame`.
     */
    method PlaybackTick() returns (outcome: TickOutcome)
      modifies this
      ensures TickResult(outcome, Jitter()) == Tick(old(Jitter()), old(playEvent || signalTeardown))
      ensures Model() == old(Model()).(playout := Jitter())
    {
      if playEvent || signalTeardown {
        buffer := [];
        return Stopped;
      }
      if !enableBufferPlayout && |buffer| > BufferThreshold / 2 {
        enableBufferPlayout := true;
      }
      if |buffer| == 0 {
        enableBufferPlayout := false;
      }
      if !enableBufferPlayout {
        return Idle;
      }
      var frame := PopStale(buffer[0]);
      if frame.seqNum != playbackSeqNo {
        playbackSeqNo := playbackSeqNo + 1;
        return Skipped;
      }
      playbackSeqNo := playbackSeqNo + 1;
      RecordPlayed(frame.seqNum);
      return Emitted(frame);
    }
  }
}
