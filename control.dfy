/**
  The control side of `Connection` in rtsp.py as a value: the RTSP state,
  the `cseq` counter, the session id, the requests written to the socket,
  the two stop flags and the jitter buffer. Each operation is a step from
  one such value to the next, together with what it returned or raised.
 */
module Control {
  import opened Wrappers
  import opened Wire
  import opened Playout

  /** The values of `self.state`. */
  datatype State = Init | Ready | Playing

  /**
    The `command` argument of `send_request`: `setup` passes a
    `(request, transport, port)` tuple, the other operations a plain string.
   */
  datatype Command = Triple(req: string, transport: string, port: int) | Name(text: string)

  /** The transport `setup` asks for. */
  const Transport := "RTP/UDP"

  /**
    The connection's fields. `sent` lists the requests written to the control
    socket, oldest first; `playEvent` and `signalTeardown` stand for the
    `Event` and the flag that stop the background loops.
   */
  datatype Conn = Conn(state: State, cseq: Option<int>, sessionId: Option<int>, rtpPort: Option<int>,
                       sent: seq<string>, playEvent: bool, signalTeardown: bool, playout: Playout)

  /** The fields after an operation, and whether it returned (Success) or raised (Failure). */
  datatype Outcome = Outcome(next: Conn, result: Result<(), Error>)

  /** The connection as `__init__` leaves it. */
  const InitialConn := Conn(Init, None, None, None, [], false, false, Playout([], -1, false, ResetStats))

  /** `send_request(command)`, with the session's `video_name` passed in. */
  function SendStep(c: Conn, command: Command, videoName: Option<string>): Outcome {
    match c.cseq
    case None =>
      match command {
        case Triple(req, transport, port) =>
          var counted := c.(cseq := Some(1));
          if req != "SETUP" then Outcome(counted, Success(()))
          else if videoName.None? then Outcome(counted, Failure(NotAString))
          else Outcome(counted.(sent := c.sent + [SetupRequest(req, videoName.value, 1, transport, port)]),
                       Success(()))
        case Name(text) =>
          // command[0] .. command[2] index the string; its first character is never "SETUP"
          if |text| == 0 then Outcome(c, Failure(NoSuchIndex))
          else if |text| < 3 then Outcome(c.(cseq := Some(1)), Failure(NoSuchIndex))
          else Outcome(c.(cseq := Some(1)), Success(()))
      }
    case Some(n) =>
      var counted := c.(cseq := Some(n + 1));
      if c.sessionId.None? then Outcome(counted, Failure(MissingAttribute("session_id")))
      else match command {
        case Triple(_, _, _) => Outcome(counted, Failure(NotAString))
        case Name(req) =>
          if videoName.None? then Outcome(counted, Failure(NotAString))
          else Outcome(counted.(sent := c.sent + [SessionRequest(req, videoName.value, n + 1, c.sessionId.value)]),
                       Success(()))
      }
  }

  /** After a request went out: read the reply, and on acceptance move to `accepted`. */
  function Answer(sent: Outcome, reply: seq<string>, accepted: Conn): Outcome {
    if sent.result.Failure? then sent
    else match ResponseOf(reply)
      case Failure(e) => Outcome(sent.next, Failure(e))
      case Success(_) => Outcome(accepted, Success(()))
  }

  /** `setup()`; `port` is the number the operating system gave the new RTP socket. */
  function SetupStep(c: Conn, videoName: Option<string>, port: int, reply: seq<string>): Outcome {
    if c.state != Init then Outcome(c, Success(()))
    else
      var reset := c.(signalTeardown := false, cseq := None, rtpPort := Some(port));
      var sent := SendStep(reset, Triple("SETUP", Transport, port), videoName);
      if sent.result.Failure? then sent
      else match ResponseOf(reply)
        case Failure(e) => Outcome(sent.next, Failure(e))
        case Success(resp) =>
          var d := sent.next;
          Outcome(d.(sessionId := Some(resp.sessionId), state := Ready,
                     playout := d.playout.(cursor := 0, stats := ResetStats)), Success(()))
  }

  /** `play()`: `start_rtp_timer` clears the stop event before the request goes out. */
  function PlayStep(c: Conn, videoName: Option<string>, reply: seq<string>): Outcome {
    if c.state != Ready then Outcome(c, Success(()))
    else
      var sent := SendStep(c.(playEvent := false), Name("PLAY"), videoName);
      Answer(sent, reply, sent.next.(state := Playing))
  }

  /** `pause()`: `stop_rtp_timer` sets the stop event before the request goes out. */
  function PauseStep(c: Conn, videoName: Option<string>, reply: seq<string>): Outcome {
    if c.state != Playing then Outcome(c, Success(()))
    else
      var sent := SendStep(c.(playEvent := true), Name("PAUSE"), videoName);
      Answer(sent, reply, sent.next.(state := Ready))
  }

  /** `teardown()`: from PLAYING it signals the background loops to stop; from READY it closes the RTP socket. */
  function TeardownStep(c: Conn, videoName: Option<string>, reply: seq<string>): Outcome {
    if c.state != Ready && c.state != Playing then Outcome(c, Success(()))
    else
      var sent := SendStep(c, Name("TEARDOWN"), videoName);
      var stopped := if c.state == Playing then sent.next.(signalTeardown := true) else sent.next;
      Answer(sent, reply, stopped.(state := Init))
  }

  /** `close()`. */
  function CloseStep(c: Conn): Conn {
    c.(signalTeardown := true)
  }
}
