/** Properties of the jitter buffer: where `insert_frame` puts a frame, what a tick does, and the statistics invariant. */
module PlayoutFacts {
  import opened Wrappers
  import opened Rtp
  import opened Playout

  /** The scan of `insert_frame` finds the first frame with a greater sequence number, or none. */
  lemma {:induction false} FirstGreaterSpec(buf: seq<Frame>, s: int, e: nat)
    ensures FirstGreater(buf, s, e).None? <==> forall j :: e <= j < |buf| ==> buf[j].seqNum <= s
    ensures FirstGreater(buf, s, e).Some? ==>
              var k := FirstGreater(buf, s, e).value;
              buf[k].seqNum > s && forall j :: e <= j < k ==> buf[j].seqNum <= s
    decreases |buf| - e
  {
    if e < |buf| && buf[e].seqNum <= s {
      FirstGreaterSpec(buf, s, e + 1);
    }
  }

  /** A frame goes immediately before the first frame with a greater sequence number, so after any equal ones. */
  lemma InsertedBeforeGreater(buf: seq<Frame>, f: Frame, k: nat)
    requires k < |buf| && buf[k].seqNum > f.seqNum
    requires forall j :: 0 <= j < k ==> buf[j].seqNum <= f.seqNum
    ensures Inserted(buf, f) == buf[..k] + [f] + buf[k..]
  {
    FirstGreaterSpec(buf, f.seqNum, 0);
    var r := FirstGreater(buf, f.seqNum, 0);
    assert r.Some? && r.value == k;
  }

  /** With no greater sequence number buffered, the frame goes at index max(len-1, 0): before the last frame. */
  lemma InsertedNoGreater(buf: seq<Frame>, f: Frame)
    requires forall j :: 0 <= j < |buf| ==> buf[j].seqNum <= f.seqNum
    ensures var k := if |buf| == 0 then 0 else |buf| - 1;
            Inserted(buf, f) == buf[..k] + [f] + buf[k..]
  {
    FirstGreaterSpec(buf, f.seqNum, 0);
  }

  /**
    The buffer grows by exactly one frame, put before the first frame with a
    greater sequence number or else at index max(len-1, 0), and the old
    frames keep their relative order.
   */
  lemma InsertedShape(buf: seq<Frame>, f: Frame)
    ensures var k := match FirstGreater(buf, f.seqNum, 0)
                     case Some(e) => e
                     case None => if |buf| == 0 then 0 else |buf| - 1;
            && k <= |buf|
            && Inserted(buf, f) == buf[..k] + [f] + buf[k..]
            && |Inserted(buf, f)| == |buf| + 1
            && Inserted(buf, f)[k] == f
            && Inserted(buf, f)[..k] + Inserted(buf, f)[k + 1..] == buf
  {
    var k := match FirstGreater(buf, f.seqNum, 0)
             case Some(e) => e
             case None => if |buf| == 0 then 0 else |buf| - 1;
    var r := buf[..k] + [f] + buf[k..];
    assert Inserted(buf, f) == r;
    assert r[..k] == buf[..k] && r[k + 1..] == buf[k..];
    assert buf[..k] + buf[k..] == buf;
  }

  /** Every frame of the new buffer is the new frame or an old one. */
  lemma InsertedElements(buf: seq<Frame>, f: Frame, i: nat)
    requires i < |Inserted(buf, f)|
    ensures Inserted(buf, f)[i] == f || Inserted(buf, f)[i] in buf
  {
    InsertedShape(buf, f);
    var k := match FirstGreater(buf, f.seqNum, 0)
             case Some(e) => e
             case None => if |buf| == 0 then 0 else |buf| - 1;
    if i < k {
      assert Inserted(buf, f)[i] == buf[i];
    } else if i > k {
      assert Inserted(buf, f)[i] == buf[i - 1];
    }
  }

  /**
    `insert_frame` keeps a sorted buffer sorted exactly when the new frame's
    sequence number does not exceed the last one's: a frame newer than all
    buffered ones lands before the last.
   */
  lemma InsertedSorted(buf: seq<Frame>, f: Frame)
    requires Sorted(buf)
    ensures Sorted(Inserted(buf, f)) <==> (|buf| == 0 || f.seqNum <= buf[|buf| - 1].seqNum)
  {
    var r := Inserted(buf, f);
    if |buf| > 0 && f.seqNum <= buf[|buf| - 1].seqNum {
      FirstGreaterSpec(buf, f.seqNum, 0);
      if buf[|buf| - 1].seqNum > f.seqNum {
        var k := FirstGreater(buf, f.seqNum, 0).value;
        InsertedBeforeGreater(buf, f, k);
        SortedAt(buf, f, k);
      } else {
        InsertedNoGreater(buf, f);
        SortedAt(buf, f, |buf| - 1);
      }
    } else if |buf| > 0 {
      assert forall j :: 0 <= j < |buf| ==> buf[j].seqNum <= buf[|buf| - 1].seqNum;
      InsertedNoGreater(buf, f);
      assert r[|buf| - 1] == f && r[|buf|] == buf[|buf| - 1];
    } else {
      InsertedNoGreater(buf, f);
    }
  }

  /** Putting `f` between frames at most and at least its sequence number keeps a sorted buffer sorted. */
  lemma SortedAt(buf: seq<Frame>, f: Frame, k: nat)
    requires Sorted(buf) && k < |buf|
    requires f.seqNum <= buf[k].seqNum
    requires forall j :: 0 <= j < k ==> buf[j].seqNum <= f.seqNum
    ensures Sorted(buf[..k] + [f] + buf[k..])
  {
    var r := buf[..k] + [f] + buf[k..];
    forall i, j | 0 <= i < j < |r|
      ensures r[i].seqNum <= r[j].seqNum
    {
      if i < k && j > k {
        assert r[i] == buf[i] && r[j] == buf[j - 1];
      } else if i > k {
        assert r[i] == buf[i - 1] && r[j] == buf[j - 1];
      }
    }
  }

  /**
    The popping loop leaves a suffix of the buffer and a frame that is the
    first one or from the buffer; it stops at once on a frame not behind the
    cursor and empties the buffer when it finds none.
   */
  lemma {:induction false} DropStaleSpec(frame: Frame, buf: seq<Frame>, cursor: int)
    ensures var r := DropStale(frame, buf, cursor);
            && IsSuffix(r.1, buf)
            && (r.0 == frame || r.0 in buf)
            && (r.0.seqNum < cursor ==> r.1 == [])
            && (frame.seqNum >= cursor ==> r == (frame, buf))
            && (frame.seqNum < cursor && |buf| > 0 ==> |r.1| < |buf|)
    decreases |buf|
  {
    if frame.seqNum < cursor && |buf| != 0 {
      DropStaleSpec(buf[0], buf[1..], cursor);
      var r := DropStale(buf[0], buf[1..], cursor);
      assert buf[1..][|buf[1..]| - |r.1|..] == buf[|buf| - |r.1|..];
      assert r.0 in buf by {
        if r.0 != buf[0] {
          assert r.0 in buf[1..];
        }
      }
    }
  }

  /**
    From a frame behind the cursor the loop stops at the first buffered frame
    that is not, which it has popped too; with none it leaves the last frame
    and an empty buffer.
   */
  lemma DropStaleStopsAtCurrent(frame: Frame, buf: seq<Frame>, cursor: int)
    requires frame.seqNum < cursor
    ensures DropStale(frame, buf, cursor) ==
              match FirstGreater(buf, cursor - 1, 0)
              case Some(k) => (buf[k], buf[k + 1..])
              case None => (if |buf| == 0 then frame else buf[|buf| - 1], [])
  {
    if |buf| != 0 {
      assert buf[0..][1..] == buf[1..];
      if buf[0].seqNum < cursor {
        DropStaleFrom(buf, cursor, 0);
      }
    }
  }

  /** From the stale frame at index `i` the loop pops up to and including the first later frame not behind the cursor. */
  lemma {:induction false} DropStaleFrom(buf: seq<Frame>, cursor: int, i: nat)
    requires i < |buf| && buf[i].seqNum < cursor
    ensures DropStale(buf[i], buf[i + 1..], cursor) ==
              match FirstGreater(buf, cursor - 1, i + 1)
              case Some(k) => (buf[k], buf[k + 1..])
              case None => (buf[|buf| - 1], [])
    decreases |buf| - i
  {
    if i + 1 < |buf| {
      assert buf[i + 1..][0] == buf[i + 1] && buf[i + 1..][1..] == buf[i + 2..];
      if buf[i + 1].seqNum < cursor {
        DropStaleFrom(buf, cursor, i + 1);
      }
    }
  }

  /**
    One tick of `process_frames`: a stop signal empties the buffer; otherwise
    playout is enabled exactly when the buffer is non-empty and either was
    enabled or holds more than half the threshold, and the cursor advances by
    one on an enabled tick and only then.
   */
  lemma TickSpec(p: Playout, stop: bool)
    ensures var r := Tick(p, stop);
            && (stop ==> r.outcome == Stopped && r.next == p.(buffer := []))
            && (!stop ==> && !r.outcome.Stopped?
                          && r.next.enabled == (|p.buffer| > 0 && (p.enabled || |p.buffer| > BufferThreshold / 2))
                          && r.next.cursor == (if r.next.enabled then p.cursor + 1 else p.cursor)
                          && (r.outcome.Idle? <==> !r.next.enabled))
            && (r.outcome.Emitted? ==> && r.outcome.frame.seqNum == p.cursor
                                       && r.outcome.frame in p.buffer
                                       && r.next.stats == Record(p.stats, p.cursor))
            && (!r.outcome.Emitted? ==> r.next.stats == p.stats)
            && IsSuffix(r.next.buffer, p.buffer)
  {
    if !stop && |p.buffer| > 0 {
      DropStaleSpec(p.buffer[0], p.buffer, p.cursor);
    }
  }

  /**
    An enabled tick looks for the first frame not behind the cursor: it emits
    that frame exactly when it carries the cursor's number, and leaves the
    buffer as it was when that frame is the head, else only the frames after
    it; with no such frame it skips and empties the buffer.
   */
  lemma TickFirstCurrent(p: Playout)
    requires |p.buffer| > 0 && (p.enabled || |p.buffer| > BufferThreshold / 2)
    ensures var r := Tick(p, false);
            match FirstGreater(p.buffer, p.cursor - 1, 0)
            case Some(k) => && r.next.buffer == (if k == 0 then p.buffer else p.buffer[k + 1..])
                            && r.outcome == (if p.buffer[k].seqNum == p.cursor then Emitted(p.buffer[k]) else Skipped)
            case None => r.next.buffer == [] && r.outcome == Skipped
  {
    var d := DropStale(p.buffer[0], p.buffer, p.cursor);
    assert Tick(p, false) == if d.0.seqNum != p.cursor then TickResult(Skipped, Playout(d.1, p.cursor + 1, true, p.stats))
                             else TickResult(Emitted(d.0), Playout(d.1, p.cursor + 1, true, Record(p.stats, d.0.seqNum)));
    if p.buffer[0].seqNum >= p.cursor {
      assert FirstGreater(p.buffer, p.cursor - 1, 0) == Some(0);
      assert d == (p.buffer[0], p.buffer);
    } else {
      DropStaleStopsAtCurrent(p.buffer[0], p.buffer, p.cursor);
      FirstGreaterSpec(p.buffer, p.cursor - 1, 0);
      match FirstGreater(p.buffer, p.cursor - 1, 0)
      case Some(k) =>
        assert k != 0 && d == (p.buffer[k], p.buffer[k + 1..]);
      case None =>
        assert d == (p.buffer[|p.buffer| - 1], []);
        assert d.0.seqNum < p.cursor;
    }
  }

  /** A head frame carrying the cursor's number is played but stays in the buffer. */
  lemma TickKeepsPlayedHead(p: Playout)
    requires |p.buffer| > 0 && (p.enabled || |p.buffer| > BufferThreshold / 2)
    requires p.buffer[0].seqNum == p.cursor
    ensures Tick(p, false) == TickResult(Emitted(p.buffer[0]),
                                         Playout(p.buffer, p.cursor + 1, true, Record(p.stats, p.cursor)))
  {
  }

  /** On the following tick that head is behind the cursor and is popped. */
  lemma TickPopsStaleHead(p: Playout)
    requires |p.buffer| > 0 && (p.enabled || |p.buffer| > BufferThreshold / 2)
    requires p.buffer[0].seqNum < p.cursor
    ensures |Tick(p, false).next.buffer| < |p.buffer|
  {
    DropStaleSpec(p.buffer[0], p.buffer, p.cursor);
  }

  /**
    The statistics update: one more frame; out of order exactly when the
    number does not follow the previous one, and then exactly one of late and
    early grows; the last and highest numbers follow.
   */
  lemma RecordSpec(st: Stats, num: int)
    ensures var r := Record(st, num);
            && r.total == st.total + 1
            && (r.outOfOrder == st.outOfOrder + 1 <==> num != st.frameSeqnum + 1)
            && (r.outOfOrder == st.outOfOrder <==> num == st.frameSeqnum + 1)
            && (r.late - st.late) + (r.early - st.early) == r.outOfOrder - st.outOfOrder
            && (r.late == st.late + 1 <==> num < st.frameSeqnum + 1)
            && r.frameSeqnum == num
            && r.maxSeqnum == (if num > st.maxSeqnum then num else st.maxSeqnum)
            && r.lost == st.lost
  {
  }

  /** A tick keeps the statistics invariant; in particular `late_packets` never grows. */
  lemma TickInv(p: Playout, stop: bool)
    requires Inv(p)
    ensures Inv(Tick(p, stop).next)
  {
    var armed := if !p.enabled && |p.buffer| > BufferThreshold / 2 then true else p.enabled;
    if stop {
      assert Tick(p, stop).next == p.(buffer := []);
    } else if |p.buffer| == 0 || !armed {
      assert Tick(p, stop).next == p.(enabled := false);
    } else {
      var d := DropStale(p.buffer[0], p.buffer, p.cursor);
      if d.0.seqNum == p.cursor {
        assert Tick(p, stop).next == Playout(d.1, p.cursor + 1, true, Record(p.stats, p.cursor));
      } else {
        assert Tick(p, stop).next == Playout(d.1, p.cursor + 1, true, p.stats);
      }
      PlayedInv(p, d);
    }
  }

  /** The state an enabled tick leaves keeps the invariant, whether or not it played a frame. */
  lemma PlayedInv(p: Playout, d: (Frame, seq<Frame>))
    requires Inv(p) && |p.buffer| != 0
    requires d == DropStale(p.buffer[0], p.buffer, p.cursor)
    ensures d.0.seqNum != p.cursor ==> Inv(Playout(d.1, p.cursor + 1, true, p.stats))
    ensures d.0.seqNum == p.cursor ==> Inv(Playout(d.1, p.cursor + 1, true, Record(p.stats, p.cursor)))
  {
    DropStaleSpec(p.buffer[0], p.buffer, p.cursor);
    SuffixNonNegative(d.1, p.buffer);
    if d.0.seqNum == p.cursor {
      assert d.0 in p.buffer;
      RecordInv(p, d.1);
    }
  }

  /** Frames left after popping keep non-negative sequence numbers. */
  lemma SuffixNonNegative(a: seq<Frame>, b: seq<Frame>)
    requires IsSuffix(a, b)
    requires forall i :: 0 <= i < |b| ==> b[i].seqNum >= 0
    ensures forall i :: 0 <= i < |a| ==> a[i].seqNum >= 0
  {
    forall i | 0 <= i < |a|
      ensures a[i].seqNum >= 0
    {
      assert a[i] == b[|b| - |a| + i];
    }
  }

  /** Playing the frame at a non-negative cursor keeps the counters' invariant. */
  lemma RecordInv(p: Playout, buf: seq<Frame>)
    requires Inv(p) && p.cursor >= 0
    requires forall i :: 0 <= i < |buf| ==> buf[i].seqNum >= 0
    ensures Inv(Playout(buf, p.cursor + 1, true, Record(p.stats, p.cursor)))
  {
  }

  /** One datagram keeps the statistics invariant. */
  lemma ReceiveInv(p: Playout, data: seq<Byte>)
    requires Inv(p)
    ensures Inv(Receive(p, data).next)
  {
    var r := Receive(p, data);
    if r.arrival.Buffered? {
      var f := r.arrival.frame;
      forall i | 0 <= i < |r.next.buffer|
        ensures r.next.buffer[i].seqNum >= 0
      {
        InsertedElements(p.buffer, f, i);
      }
    }
  }

  /**
    One datagram: only the buffer can change, and it changes exactly when the
    datagram decodes to a frame that is not behind the cursor; that frame is
    then inserted.
   */
  lemma ReceiveSpec(p: Playout, data: seq<Byte>)
    ensures var r := Receive(p, data);
            && (r.arrival.Buffered? <==> |data| >= 8 && Decode(data).value.seqNum >= p.cursor)
            && (r.arrival.Ignored? <==> |data| == 0)
            && (r.arrival.Truncated? <==> 0 < |data| < 8)
            && (!r.arrival.Buffered? ==> r.next == p)
            && (r.arrival.Buffered? ==> && r.arrival.frame == Decode(data).value
                                        && r.next == p.(buffer := Inserted(p.buffer, r.arrival.frame))
                                        && |r.next.buffer| == |p.buffer| + 1)
  {
    if |data| >= 8 {
      InsertedShape(p.buffer, Decode(data).value);
    }
  }

  /** The counters after a reset satisfy the invariant, and under it no packet counts as lost more than once. */
  lemma ResetInv(buf: seq<Frame>, cursor: int, enabled: bool)
    requires cursor >= -1
    requires forall i :: 0 <= i < |buf| ==> buf[i].seqNum >= 0
    ensures Inv(Playout(buf, cursor, enabled, ResetStats))
  {
  }

  /** Under the invariant the packets-lost count is never negative and no packet is late. */
  lemma InvLost(p: Playout)
    requires Inv(p)
    ensures PacketsLost(p.stats) >= 0 && p.stats.late == 0
    ensures p.stats.early == p.stats.outOfOrder
  {
  }
}
