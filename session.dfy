/**
  `Session` from session.py: the video name, the registered listeners and
  the connection it drives. Each method makes the connection call the Python
  method makes and then the listener calls, recorded in `events`. An
  exception from the connection becomes one `exception_thrown` per listener.
 */
module Facade {
  import opened Wrappers
  import opened Wire
  import opened Rtp
  import opened Playout
  import opened Control
  import opened Events
  import opened Rtsp

  class Session {
    var connection: Connection
    var videoName: Option<string>
    var listeners: seq<Listener>
    /** Every listener call made so far, oldest first. */
    var events: seq<Event>

    /** `Session(address)`; connecting to the address is not modelled. */
    constructor()
      ensures fresh(connection) && connection.Model() == InitialConn
      ensures videoName == None && listeners == [] && events == []
    {
      connection := new Connection();
      videoName := None;
      listeners := [];
      events := [];
    }

    /** The `for l in self.listeners:` loops: each listener in turn receives the calls `ns`. */
    method Announce(ns: seq<Notice>)
      modifies this
      ensures events == old(events) + Broadcast(listeners, ns)
      ensures connection == old(connection) && videoName == old(videoName) && listeners == old(listeners)
    {
      for i := 0 to |listeners|
        invariant connection == old(connection) && videoName == old(videoName) && listeners == old(listeners)
        invariant events == old(events) + Broadcast(listeners[..i], ns)
      {
        assert listeners[..i + 1][..i] == listeners[..i];
        events := events + Notify(listeners[i], ns);
      }
      assert listeners[..|listeners|] == listeners;
    }

    /** `add_listener(l)`: register, then tell the new listener the current name. */
    method AddListener(l: Listener)
      modifies this
      ensures listeners == old(listeners) + [l]
      ensures events == old(events) + [Event(l, VideoNameChanged(old(videoName)))]
      ensures connection == old(connection) && videoName == old(videoName)
    {
      listeners := listeners + [l];
      events := events + [Event(l, VideoNameChanged(videoName))];
    }

    /** `handle_exception(e)`. */
    method HandleException(e: Error)
      modifies this
      ensures events == old(events) + Broadcast(listeners, [ExceptionThrown(e)])
      ensures connection == old(connection) && videoName == old(videoName) && listeners == old(listeners)
    {
      Announce([ExceptionThrown(e)]);
    }

    /**
      `open(name)`: the name is set before `setup` runs, so it stays set when
      setup raises; then every listener hears the new name, or, if setup
      raised, the exception and nothing else.
     */
    method Open(name: string, port: int, reply: seq<string>)
      modifies this, connection
      ensures connection == old(connection) && listeners == old(listeners)
      ensures videoName == Some(name)
      ensures var o := SetupStep(old(connection.Model()), Some(name), port, reply);
              && connection.Model() == o.next
              && events == old(events) + Broadcast(listeners, if o.result.Failure? then [ExceptionThrown(o.result.error)]
                                                              else [VideoNameChanged(Some(name))])
    {
      videoName := Some(name);
      var r := connection.Setup(videoName, port, reply);
      if r.Failure? {
        HandleException(r.error);
      } else {
        Announce([VideoNameChanged(Some(name))]);
      }
    }

    /** `play()`: silent on success, one `exception_thrown` per listener otherwise. */
    method Play(reply: seq<string>)
      modifies this, connection
      ensures connection == old(connection) && listeners == old(listeners) && videoName == old(videoName)
      ensures var o := PlayStep(old(connection.Model()), old(videoName), reply);
              && connection.Model() == o.next
              && events == old(events) + (if o.result.Failure? then Broadcast(listeners, [ExceptionThrown(o.result.error)]) else [])
    {
      var r := connection.Play(videoName, reply);
      if r.Failure? {
        HandleException(r.error);
      }
    }

    /** `pause()`: silent on success, one `exception_thrown` per listener otherwise. */
    method Pause(reply: seq<string>)
      modifies this, connection
      ensures connection == old(connection) && listeners == old(listeners) && videoName == old(videoName)
      ensures var o := PauseStep(old(connection.Model()), old(videoName), reply);
              && connection.Model() == o.next
              && events == old(events) + (if o.result.Failure? then Broadcast(listeners, [ExceptionThrown(o.result.error)]) else [])
    {
      var r := connection.Pause(videoName, reply);
      if r.Failure? {
        HandleException(r.error);
      }
    }

    /**
      `teardown()`: unless the connection raises (also when it did nothing,
      outside READY and PLAYING), the name is cleared and every listener gets
      `frame_received(None)` then `video_name_changed(None)`.
     */
    method Teardown(reply: seq<string>)
      modifies this, connection
      ensures connection == old(connection) && listeners == old(listeners)
      ensures var o := TeardownStep(old(connection.Model()), old(videoName), reply);
              && connection.Model() == o.next
              && videoName == (if o.result.Failure? then old(videoName) else None)
              && events == old(events) + Broadcast(listeners, if o.result.Failure? then [ExceptionThrown(o.result.error)]
                                                              else [FrameReceived(None), VideoNameChanged(None)])
    {
      var r := connection.Teardown(videoName, reply);
      if r.Failure? {
        HandleException(r.error);
      } else {
        videoName := None;
        Announce([FrameReceived(None), VideoNameChanged(None)]);
      }
    }

    /** `close()`: every listener gets `video_name_changed(None)` then `frame_received(None)`; the name is kept. */
    method Close()
      modifies this, connection
      ensures connection == old(connection) && listeners == old(listeners) && videoName == old(videoName)
      ensures connection.Model() == CloseStep(old(connection.Model()))
      ensures events == old(events) + Broadcast(listeners, [VideoNameChanged(None), FrameReceived(None)])
    {
      connection.Close();
      Announce([VideoNameChanged(None), FrameReceived(None)]);
    }

    /** `process_frame(...)`: the frame goes to every listener only while the name is set and not empty. */
    method ProcessFrame(payloadType: int, marker: int, sequenceNumber: int, timestamp: int, payload: seq<Byte>)
      modifies this
      ensures connection == old(connection) && listeners == old(listeners) && videoName == old(videoName)
      ensures var frame := VideoFrame(payloadType, marker, sequenceNumber, timestamp, payload);
              events == old(events) + (if videoName.Some? && |videoName.value| > 0
                                       then Broadcast(listeners, [FrameReceived(Some(frame))]) else [])
    {
      var frame := VideoFrame(payloadType, marker, sequenceNumber, timestamp, payload);
      if videoName.Some? && |videoName.value| > 0 {
        Announce([FrameReceived(Some(frame))]);
      }
    }

    /** One iteration of the connection's playback loop, handing an emitted frame to `process_frame`. */
    method PlaybackTick() returns (outcome: TickOutcome)
      modifies this, connection
      ensures connection == old(connection) && listeners == old(listeners) && videoName == old(videoName)
      ensures var t := Tick(old(connection.Jitter()), old(connection.playEvent || connection.signalTeardown));
              && outcome == t.outcome
              && connection.Model() == old(connection.Model()).(playout := t.next)
              && events == old(events) + (if outcome.Emitted? && videoName.Some? && |videoName.value| > 0
                                          then Broadcast(listeners, [FrameReceived(Some(Shown(outcome.frame)))])
                                          else [])
    {
      outcome := connection.PlaybackTick();
      if outcome.Emitted? {
        var f := outcome.frame;
        ProcessFrame(f.payloadType, f.marker, f.seqNum, f.timestamp, f.payload);
      }
    }
  }

  /** The `VideoFrame` a buffered frame becomes. */
  function Shown(f: Frame): (v: VideoFrame)
    ensures && v.payloadType == f.payloadType && v.marker == f.marker && v.sequenceNumber == f.seqNum
            && v.timestamp == f.timestamp && v.payload == f.payload
  {
    VideoFrame(f.payloadType, f.marker, f.seqNum, f.timestamp, f.payload)
  }
}
