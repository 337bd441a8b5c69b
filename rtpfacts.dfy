/** Properties of RTP header decoding: the fields as numbers, what is ignored, and the round trip. */
module RtpFacts {
  import opened Wrappers
  import opened Rtp

  /** The shifts and masks compute the big-endian values; the marker is the top bit, the type the other seven. */
  lemma DecodeFields(data: seq<Byte>)
    requires |data| >= 8
    ensures var f := Decode(data).value;
            && f.marker == data[1] as int / 128
            && f.payloadType == data[1] as int % 128
            && f.seqNum == data[2] as int * 256 + data[3] as int
            && f.timestamp == ((data[4] as int * 256 + data[5] as int) * 256 + data[6] as int) * 256 + data[7] as int
  {
    Field16Value(data[2], data[3]);
    Field32Value(data[4], data[5], data[6], data[7]);
    MarkerType(data[1]);
  }

  lemma Field16Value(hi: Byte, lo: Byte)
    ensures Field16(hi, lo) == hi as int * 256 + lo as int
  {
  }

  lemma Field32Value(a: Byte, b: Byte, c: Byte, d: Byte)
    ensures Field32(a, b, c, d) == ((a as int * 256 + b as int) * 256 + c as int) * 256 + d as int
  {
  }

  lemma MarkerType(b: Byte)
    ensures (b >> 7) as int == b as int / 128 && (b & 0x7F) as int == b as int % 128
  {
  }

  /** The payload is exactly the data from byte 12 on, empty for a datagram of 8 to 12 bytes. */
  lemma DecodePayload(data: seq<Byte>)
    requires |data| >= 8
    ensures |data| >= HeaderSize ==> Decode(data).value.payload == data[HeaderSize..]
    ensures |data| <= HeaderSize ==> Decode(data).value.payload == []
  {
  }

  /** Bytes 0 and 8-11 do not affect the decoded frame. */
  lemma DecodeIgnores(d1: seq<Byte>, d2: seq<Byte>)
    requires |d1| == |d2|
    requires forall i :: 1 <= i < 8 && i < |d1| ==> d1[i] == d2[i]
    requires forall i :: HeaderSize <= i < |d1| ==> d1[i] == d2[i]
    ensures Decode(d1) == Decode(d2)
  {
    if |d1| >= 8 {
      assert From(d1, HeaderSize) == From(d2, HeaderSize);
    }
  }

  /** A datagram written from a frame decodes to that frame, whatever byte 0 and the SSRC are. */
  lemma DecodeEncode(first: Byte, f: Frame, ssrc: seq<Byte>)
    requires (f.marker == 0 || f.marker == 1) && 0 <= f.payloadType < 128
    requires 0 <= f.seqNum < 0x1_0000 && 0 <= f.timestamp < 0x1_0000_0000 && |ssrc| == 4
    ensures Decode(Encode(first, f, ssrc)) == Some(f)
  {
    var data := Encode(first, f, ssrc);
    var s, t := f.seqNum, f.timestamp;
    DecodeFields(data);
    DecodePayload(data);
    assert data[HeaderSize..] == f.payload;
    Digits32(t);
    assert data[1] as int == f.marker * 128 + f.payloadType;
  }

  /** The four base-256 digits of a 32-bit number give it back. */
  lemma Digits32(t: int)
    requires 0 <= t < 0x1_0000_0000
    ensures t / 0x100_0000 < 256
    ensures t == ((t / 0x100_0000 * 256 + t / 0x1_0000 % 256) * 256 + t / 256 % 256) * 256 + t % 256
  {
    assert t / 256 / 256 == t / 0x1_0000;
    assert t / 0x1_0000 / 256 == t / 0x100_0000;
    assert t == t / 256 * 256 + t % 256;
    assert t / 256 == t / 0x1_0000 * 256 + t / 256 % 256;
    assert t / 0x1_0000 == t / 0x100_0000 * 256 + t / 0x1_0000 % 256;
  }
}
