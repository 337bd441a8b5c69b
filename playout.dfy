/**
  The client's jitter buffer as rtsp.py keeps it in `Connection`: the frames
  `insert_frame` adds, the cursor `playback_seq_no`, the flag
  `enable_buffer_playout` and the statistics counters, with one iteration of
  the `process_frames` loop as a step over them.
 */
module Playout {
  import opened Wrappers
  import opened Rtp

  /** `BUFFER_THRESHOLD`: playout starts once more than half this many frames are buffered. */
  const BufferThreshold := 120

  /** The counters `out_of_order_pkts`, `total_pkts`, `lost_pkts`, `frame_seqnum`, `max_seqnum`, `early_packets`, `late_packets`. */
  datatype Stats = Stats(outOfOrder: int, total: int, lost: int, frameSeqnum: int,
                         maxSeqnum: int, early: int, late: int)

  /** The counter values `__init__` and a successful `setup` assign. */
  const ResetStats := Stats(0, 0, 0, -1, 0, 0, 0)

  datatype Playout = Playout(buffer: seq<Frame>, cursor: int, enabled: bool, stats: Stats)

  /** What one loop iteration of `process_frames` does. */
  datatype TickOutcome =
    | Stopped            // a stop signal emptied the buffer and ended the loop
    | Idle               // playout not enabled
    | Skipped            // the frame at the cursor is missing; the cursor moves on
    | Emitted(frame: Frame)  // the frame handed to `session.process_frame`

  datatype TickResult = TickResult(outcome: TickOutcome, next: Playout)

  /** What `listen_for_rtp` does with one datagram. */
  datatype Arrival =
    | Ignored            // empty data
    | Truncated          // shorter than 8 bytes: IndexError
    | Late(frame: Frame) // behind the playback cursor: dropped
    | Buffered(frame: Frame)

  datatype ArrivalResult = ArrivalResult(arrival: Arrival, next: Playout)

  /** Python's `xs.insert(i, x)`: a negative index counts from the end, and the index is clamped to the list. */
  function PyInsert<T>(xs: seq<T>, i: int, x: T): seq<T> {
    var j := if i < 0 then (if i + |xs| < 0 then 0 else i + |xs|) else (if i > |xs| then |xs| else i);
    xs[..j] + [x] + xs[j..]
  }

  /** The first index from `e` on whose frame has a sequence number greater than `s`. */
  function FirstGreater(buf: seq<Frame>, s: int, e: nat): (r: Option<nat>)
    ensures r.Some? ==> e <= r.value < |buf|
    decreases |buf| - e
  {
    if e >= |buf| then None
    else if buf[e].seqNum > s then Some(e)
    else FirstGreater(buf, s, e + 1)
  }

  /** The buffer after `insert_frame(f)`. */
  function Inserted(buf: seq<Frame>, f: Frame): seq<Frame> {
    match FirstGreater(buf, f.seqNum, 0)
    case Some(e) => PyInsert(buf, e, f)
    case None => PyInsert(buf, |buf| - 1, f)
  }

  /** The inner `while` of `process_frames`: pop frames while the current one is behind the cursor. */
  function DropStale(frame: Frame, buf: seq<Frame>, cursor: int): (Frame, seq<Frame>)
    decreases |buf|
  {
    if frame.seqNum < cursor && |buf| != 0 then DropStale(buf[0], buf[1..], cursor)
    else (frame, buf)
  }

  /** The statistics update after a frame with sequence number `num` was played. */
  function Record(st: Stats, num: int): Stats {
    var gap := st.frameSeqnum + 1 != num;
    st.(total := st.total + 1,
        outOfOrder := if gap then st.outOfOrder + 1 else st.outOfOrder,
        late := if gap && st.frameSeqnum + 1 > num then st.late + 1 else st.late,
        early := if gap && !(st.frameSeqnum + 1 > num) then st.early + 1 else st.early,
        frameSeqnum := num,
        maxSeqnum := if num > st.maxSeqnum then num else st.maxSeqnum)
  }

  /** `pkts_lost`: frames up to the highest sequence number seen that were not played. */
  function PacketsLost(st: Stats): int {
    (st.maxSeqnum + 1) - st.total
  }

  /**
    One iteration of the `process_frames` loop; `stop` is
    `playEvent.is_set() or signalTeardown`. The float comparison with
    `BUFFER_THRESHOLD / 2` is exact, as the threshold is even.
   */
  function Tick(p: Playout, stop: bool): TickResult {
    if stop then TickResult(Stopped, p.(buffer := []))
    else
      var armed := if !p.enabled && |p.buffer| > BufferThreshold / 2 then true else p.enabled;
      var enabled := if |p.buffer| == 0 then false else armed;
      if !enabled then TickResult(Idle, p.(enabled := false))
      else
        var dropped := DropStale(p.buffer[0], p.buffer, p.cursor);
        var frame := dropped.0;
        if frame.seqNum != p.cursor then TickResult(Skipped, Playout(dropped.1, p.cursor + 1, true, p.stats))
        else TickResult(Emitted(frame), Playout(dropped.1, p.cursor + 1, true, Record(p.stats, frame.seqNum)))
  }

  /** One datagram through `listen_for_rtp`: decode, drop if behind the cursor, else `insert_frame`. */
  function Receive(p: Playout, data: seq<Byte>): ArrivalResult {
    if |data| == 0 then ArrivalResult(Ignored, p)
    else match Decode(data)
      case None => ArrivalResult(Truncated, p)
      case Some(f) =>
        if f.seqNum < p.cursor then ArrivalResult(Late(f), p)
        else ArrivalResult(Buffered(f), p.(buffer := Inserted(p.buffer, f)))
  }

  /** `b` ends with `a`. */
  predicate IsSuffix<T(==)>(a: seq<T>, b: seq<T>) {
    |a| <= |b| && a == b[|b| - |a|..]
  }

  /** Buffered frames in non-decreasing sequence-number order. */
  predicate Sorted(buf: seq<Frame>) {
    forall i, j :: 0 <= i < j < |buf| ==> buf[i].seqNum <= buf[j].seqNum
  }

  /**
    What the statistics keep between frames: every out-of-order frame is
    early, none is late, the played frames fit below the last one played, and
    the last one played is behind the cursor.
   */
  predicate Inv(p: Playout) {
    var st := p.stats;
    && st.early + st.late == st.outOfOrder && st.late == 0
    && 0 <= st.outOfOrder <= st.total <= st.frameSeqnum + 1
    && st.frameSeqnum <= st.maxSeqnum
    && (st.frameSeqnum < p.cursor || st.frameSeqnum == -1)
    && (forall i :: 0 <= i < |p.buffer| ==> p.buffer[i].seqNum >= 0)
  }
}
