/**
  The RTP fixed header (section 5.1 of RFC 3550) as `listen_for_rtp` in
  rtsp.py reads it: M and PT from the second byte, the sequence number from
  bytes 2-3, the timestamp from bytes 4-7, and the payload from byte 12 on.
  Byte 0 (V, P, X, CC) and the SSRC (bytes 8-11) are never read.
 */
module Rtp {
  import opened Wrappers

  type Byte = bv8

  /** `RTP_HEADER_SIZE`: where the payload starts. */
  const HeaderSize := 12

  /** The frame tuple `(payload_type, marker, seq_num, timestamp, rtp_payload)` that `insert_frame` buffers. */
  datatype Frame = Frame(payloadType: int, marker: int, seqNum: int, timestamp: int, payload: seq<Byte>)

  /** `hi << 8 | lo` on two bytes. */
  function Field16(hi: Byte, lo: Byte): int {
    (((hi as bv16) << 8) | (lo as bv16)) as int
  }

  /** `a << 24 | b << 16 | c << 8 | d` on four bytes. */
  function Field32(a: Byte, b: Byte, c: Byte, d: Byte): int {
    (((a as bv32) << 24) | ((b as bv32) << 16) | ((c as bv32) << 8) | (d as bv32)) as int
  }

  /** The byte holding a number below 256. */
  function ToByte(x: int): (b: Byte)
    requires 0 <= x < 256
    ensures b as int == x
  {
    if x == 0 then 0
    else
      var below := ToByte(x - 1);
      assert below < 255;
      below + 1
  }

  /** Python's `data[n:]`: empty when the data is no longer than `n`. */
  function From(data: seq<Byte>, n: nat): seq<Byte> {
    if |data| <= n then [] else data[n..]
  }

  /**
    The frame a datagram decodes to; None where reading byte 1 to 7 of the
    header raises IndexError, that is, for data shorter than 8 bytes.
   */
  function Decode(data: seq<Byte>): (r: Option<Frame>)
    ensures r.Some? <==> |data| >= 8
    ensures r.Some? ==> && (r.value.marker == 0 || r.value.marker == 1)
                        && 0 <= r.value.payloadType < 128
                        && 0 <= r.value.seqNum < 0x1_0000
                        && 0 <= r.value.timestamp < 0x1_0000_0000
  {
    if |data| < 8 then None
    else
      var marker := (data[1] >> 7) as int;
      var payloadType := (data[1] & 0x7F) as int;
      Some(Frame(payloadType, marker, Field16(data[2], data[3]),
                 Field32(data[4], data[5], data[6], data[7]), From(data, HeaderSize)))
  }

  /** The datagram a sender writes: byte 0, M and PT, the sequence number and timestamp big-endian, the SSRC, the payload. */
  function Encode(first: Byte, f: Frame, ssrc: seq<Byte>): seq<Byte>
    requires (f.marker == 0 || f.marker == 1) && 0 <= f.payloadType < 128
    requires 0 <= f.seqNum < 0x1_0000 && 0 <= f.timestamp < 0x1_0000_0000 && |ssrc| == 4
  {
    var s, t := f.seqNum, f.timestamp;
    [first, ToByte(f.marker * 128 + f.payloadType),
     ToByte(s / 256), ToByte(s % 256),
     ToByte(t / 0x100_0000), ToByte(t / 0x1_0000 % 256), ToByte(t / 256 % 256), ToByte(t % 256)]
    + ssrc + f.payload
  }
}
