/**
  What session.py's listeners are told, as a trace: each call of
  `exception_thrown`, `frame_received` or `video_name_changed` on a listener
  is one event, in the order the calls are made.
 */
module Events {
  import opened Wrappers
  import opened Wire
  import opened Rtp

  /** A registered `SessionListener`, by identity. */
  type Listener = nat

  /** `VideoFrame`: the five values `process_frame` receives, unchanged. */
  datatype VideoFrame = VideoFrame(payloadType: int, marker: int, sequenceNumber: int, timestamp: int,
                                   payload: seq<Byte>)

  /** One listener call and its argument. */
  datatype Notice =
    | ExceptionThrown(error: Error)
    | FrameReceived(frame: Option<VideoFrame>)
    | VideoNameChanged(name: Option<string>)

  datatype Event = Event(listener: Listener, notice: Notice)

  /** The calls one listener receives, in order. */
  function Notify(l: Listener, ns: seq<Notice>): (es: seq<Event>)
    ensures |es| == |ns|
  {
    seq(|ns|, j requires 0 <= j < |ns| => Event(l, ns[j]))
  }

  /** `for l in self.listeners:` making the calls `ns` on each listener in turn. */
  function Broadcast(ls: seq<Listener>, ns: seq<Notice>): seq<Event>
    decreases |ls|
  {
    if |ls| == 0 then [] else Broadcast(ls[..|ls| - 1], ns) + Notify(ls[|ls| - 1], ns)
  }

  lemma {:induction false} BroadcastLength(ls: seq<Listener>, ns: seq<Notice>)
    ensures |Broadcast(ls, ns)| == |ls| * |ns|
    decreases |ls|
  {
    if |ls| > 0 {
      BroadcastLength(ls[..|ls| - 1], ns);
      assert (|ls| - 1) * |ns| + |ns| == |ls| * |ns|;
    }
  }

  /**
    The trace is listener-major: every listener, in registration order,
    receives all the calls, in order, before the next listener receives any.
   */
  lemma {:induction false} BroadcastAt(ls: seq<Listener>, ns: seq<Notice>, i: nat, j: nat)
    requires i < |ls| && j < |ns|
    ensures i * |ns| + j < |Broadcast(ls, ns)|
    ensures Broadcast(ls, ns)[i * |ns| + j] == Event(ls[i], ns[j])
    decreases |ls|
  {
    var init := ls[..|ls| - 1];
    BroadcastLength(init, ns);
    BroadcastLength(ls, ns);
    var b := Broadcast(init, ns);
    MulStep(i, |ls|, j, |ns|);
    if i < |ls| - 1 {
      BroadcastAt(init, ns, i, j);
      assert init[i] == ls[i];
      assert Broadcast(ls, ns)[i * |ns| + j] == b[i * |ns| + j];
    } else {
      assert i * |ns| + j == |b| + j;
      assert Broadcast(ls, ns)[|b| + j] == Notify(ls[i], ns)[j];
    }
  }

  /** Row `i` of a table with `m` columns starts past the `i` rows before it. */
  lemma MulStep(i: nat, n: nat, j: nat, m: nat)
    requires i < n && j < m
    ensures i * m + j < n * m
    ensures i < n - 1 ==> i * m + j < (n - 1) * m
    ensures i == n - 1 ==> i * m + j == (n - 1) * m + j
  {
    MulMonotone(i + 1, n, m);
    if i < n - 1 {
      MulMonotone(i + 1, n - 1, m);
    }
  }

  /** Multiplying by `m` keeps the order of the factors, and a row more adds `m`. */
  lemma {:induction false} MulMonotone(a: nat, b: nat, m: nat)
    requires a <= b
    ensures a * m <= b * m
    ensures a > 0 ==> a * m == (a - 1) * m + m
    decreases b - a
  {
    if a < b {
      MulMonotone(a + 1, b, m);
    }
  }

  /** A single call per listener: the trace is exactly one event per listener, in order. */
  lemma BroadcastOne(ls: seq<Listener>, n: Notice)
    ensures |Broadcast(ls, [n])| == |ls|
    ensures forall i :: 0 <= i < |ls| ==> Broadcast(ls, [n])[i] == Event(ls[i], n)
  {
    BroadcastLength(ls, [n]);
    forall i | 0 <= i < |ls|
      ensures Broadcast(ls, [n])[i] == Event(ls[i], n)
    {
      BroadcastAt(ls, [n], i, 0);
      assert i * |[n]| + 0 == i;
    }
  }
}
