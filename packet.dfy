/**
 * receiver/net.c: the receiver's side of the wire format. An audio datagram
 * is a little-endian `uint64_t` timestamp, a one-byte channel count, a table
 * of one little-endian `uint16_t` payload length per channel, and then the
 * per-channel payloads back to back. The receiver picks out the payload of
 * its own channel and hands it to the decoder. A time datagram is a bare
 * 8-byte timestamp.
 */
module Packet {
  import opened Wrappers
  import Machine

  type byte = Machine.byte

  /** `MAX_PACKET_SIZE`, the size of the static receive buffer. */
  const MaxPacketSize: nat := 2048

  /** `sizeof(uint64_t) + sizeof(uint8_t)`: where the length table starts. */
  const TableStart: nat := 9

  // ------------------------------------------------------------ time packet

  /** What `receive_time_packet` does: return a timestamp, or exit the process. */
  datatype TimeRead = TimeValue(value: nat) | ExitProcess

  /**
   * `receive_time_packet`, given what `recvfrom` returned (`bytesRead`),
   * whether `errno` is `EAGAIN`, and the 8 bytes of `recv_timestamp` after
   * the call. A short read returns the sentinel 0 on `EAGAIN` and exits the
   * process otherwise.
   */
  function ReceiveTimePacket(bytesRead: int, eagain: bool, value: seq<byte>): (r: TimeRead)
    requires |value| == 8
    ensures bytesRead != 8 ==> (r == TimeValue(0) <==> eagain) && (r == ExitProcess <==> !eagain)
    ensures bytesRead == 8 ==> r.TimeValue? && r.value < Machine.U64
  {
    if bytesRead != 8 then (if eagain then TimeValue(0) else ExitProcess)
    else
      Machine.FromLittleEndianBound(value);
      Machine.Pow256Values();
      TimeValue(Machine.FromLittleEndian(value))
  }

  /** A full read of a sent timestamp returns it. */
  lemma TimePacketRoundTrip(t: nat, eagain: bool)
    requires t < Machine.U64
    ensures ReceiveTimePacket(8, eagain, Machine.LittleEndian(t, 8)) == TimeValue(t)
  {
    U64RoundTrip(t);
  }

  lemma U64RoundTrip(v: nat)
    requires v < Machine.U64
    ensures Machine.FromLittleEndian(Machine.LittleEndian(v, 8)) == v
  {
    Machine.LittleEndianRoundTrip(v, 8);
    Machine.Pow256Values();
  }

  lemma U16RoundTrip(v: nat)
    requires v < Machine.U16
    ensures Machine.FromLittleEndian(Machine.LittleEndian(v, 2)) == v
  {
    Machine.LittleEndianRoundTrip(v, 2);
    assert Machine.Pow256(2) == Machine.U16;
  }

  // ----------------------------------------------------------- audio packet

  /** The little-endian `uint16_t` at byte `at`. */
  function U16At(buf: seq<byte>, at: nat): (v: nat)
    requires at + 2 <= |buf|
    ensures v < Machine.U16
  {
    Machine.FromLittleEndianBound(buf[at..at + 2]);
    assert Machine.Pow256(2) == Machine.U16;
    Machine.FromLittleEndian(buf[at..at + 2])
  }

  /** `data_lens[c]`: entry `c` of the length table. */
  function LenAt(buf: seq<byte>, c: nat): (v: nat)
    requires TableStart + 2 * c + 2 <= |buf|
    ensures v < Machine.U16
  {
    U16At(buf, TableStart + 2 * c)
  }

  /**
   * `our_data_offset` after adding the first `n` table entries: a
   * `uint16_t`, so every addition wraps modulo 2^16.
   */
  function DataOffset(buf: seq<byte>, channels: nat, n: nat): (o: nat)
    requires channels < Machine.U8 && n <= channels + 1 && TableStart + 2 * n <= |buf|
    ensures o < Machine.U16
  {
    if n == 0 then TableStart + 2 * channels
    else Machine.Wrap(DataOffset(buf, channels, n - 1) + LenAt(buf, n - 1), Machine.U16)
  }

  /**
   * The payload handed to `decode_frame`: the timestamp stored in `packet`,
   * and the offset and length of the payload in the receive buffer.
   */
  datatype Selection = Selection(timestamp: nat, offset: nat, len: nat)

  /**
   * The parse of a full receive buffer for channel `channelIdx`: `NULL`
   * when the index exceeds the channel count; an index equal to the count
   * is let through.
   */
  function Parse(buf: seq<byte>, channelIdx: nat): (r: Option<Selection>)
    requires |buf| == MaxPacketSize && channelIdx < Machine.U8
    ensures r.None? <==> channelIdx > buf[8]
    ensures r.Some? ==> r.value.timestamp == Machine.FromLittleEndian(buf[..8]) && r.value.len < Machine.U16
  {
    if channelIdx > buf[8] then None
    else Some(Selection(Machine.FromLittleEndian(buf[..8]), DataOffset(buf, buf[8], channelIdx), LenAt(buf, channelIdx)))
  }

  /**
   * The receive buffer and the one `packet` struct, both static in the
   * source. The decoder is not modelled: `payloadOffset` and `payloadLen`
   * record the arguments `decode_frame` was given.
   */
  class Receiver {
    const recvBuffer: array<byte>
    var timestamp: nat
    var payloadOffset: nat
    var payloadLen: nat

    ghost predicate Valid()
      reads this
    {
      recvBuffer.Length == MaxPacketSize
    }

    /** Static storage starts zeroed. */
    constructor ()
      ensures Valid() && fresh(recvBuffer)
      ensures forall i :: 0 <= i < MaxPacketSize ==> recvBuffer[i] == 0
      ensures timestamp == 0 && payloadOffset == 0 && payloadLen == 0
    {
      recvBuffer := new byte[MaxPacketSize](_ => 0);
      timestamp, payloadOffset, payloadLen := 0, 0, 0;
    }

    /**
     * `receive_audio_packet` on a datagram that `read` delivers: nothing is
     * read and `NULL` is returned for an empty one; otherwise the datagram
     * overwrites the front of the buffer (what lies beyond it is left from
     * earlier datagrams), the timestamp is stored, and the parse decides
     * between `NULL` and a payload.
     */
    method ReceiveAudioPacket(datagram: seq<byte>, channelIdx: nat) returns (ok: bool)
      requires Valid() && |datagram| <= MaxPacketSize && channelIdx < Machine.U8
      modifies recvBuffer, this`timestamp, this`payloadOffset, this`payloadLen
      ensures Valid()
      ensures datagram == [] ==>
        && !ok && recvBuffer[..] == old(recvBuffer[..]) && timestamp == old(timestamp)
        && payloadOffset == old(payloadOffset) && payloadLen == old(payloadLen)
      ensures datagram != [] ==>
        && recvBuffer[..] == datagram + old(recvBuffer[..])[|datagram|..]
        && var p := Parse(recvBuffer[..], channelIdx);
        && timestamp == Machine.FromLittleEndian(recvBuffer[..8])
        && (ok <==> p.Some?)
        && (ok ==> payloadOffset == p.value.offset && payloadLen == p.value.len)
        && (!ok ==> payloadOffset == old(payloadOffset) && payloadLen == old(payloadLen))
    {
      if |datagram| == 0 {
        return false;
      }
      forall i | 0 <= i < |datagram| {
        recvBuffer[i] := datagram[i];
      }
      assert recvBuffer[..] == datagram + old(recvBuffer[..])[|datagram|..];
      timestamp := Machine.FromLittleEndian(recvBuffer[..8]);
      var channels := recvBuffer[8];
      if channelIdx > channels {
        return false;
      }
      var offset := OursOffset(channels, channelIdx);
      payloadOffset := offset;
      payloadLen := LenAt(recvBuffer[..], channelIdx);
      ok := true;
    }

    /** The loop that sums the earlier channels' lengths into `our_data_offset`. */
    method OursOffset(channels: nat, channelIdx: nat) returns (offset: nat)
      requires Valid() && channels < Machine.U8 && channelIdx <= channels
      ensures offset == DataOffset(recvBuffer[..], channels, channelIdx)
    {
      offset := TableStart + 2 * channels;
      var c := 0;
      while c < channelIdx
        invariant c <= channelIdx && offset == DataOffset(recvBuffer[..], channels, c)
      {
        offset := Machine.Wrap(offset + LenAt(recvBuffer[..], c), Machine.U16);
        c := c + 1;
      }
    }
  }

  // ---------------------------------------------------------- the encoding

  /** Payload lengths fit the `uint16_t` table entries. */
  predicate Encodable(ts: nat, payloads: seq<seq<byte>>)
  {
    && ts < Machine.U64 && |payloads| < Machine.U8
    && forall k :: 0 <= k < |payloads| ==> |payloads[k]| < Machine.U16
  }

  /** The length table: one little-endian `uint16_t` per payload. */
  function LenTable(payloads: seq<seq<byte>>): (t: seq<byte>)
    ensures |t| == 2 * |payloads|
  {
    if payloads == [] then [] else Machine.LittleEndian(|payloads[0]|, 2) + LenTable(payloads[1..])
  }

  function Concat(payloads: seq<seq<byte>>): seq<byte>
  {
    if payloads == [] then [] else payloads[0] + Concat(payloads[1..])
  }

  /** The total length of the first `n` payloads. */
  function LenBefore(payloads: seq<seq<byte>>, n: nat): nat
    requires n <= |payloads|
  {
    if n == 0 then 0 else LenBefore(payloads, n - 1) + |payloads[n - 1]|
  }

  /** The fixed part of a datagram: timestamp, channel count and length table. */
  function Head(ts: nat, payloads: seq<seq<byte>>): (h: seq<byte>)
    requires Encodable(ts, payloads)
    ensures |h| == TableStart + 2 * |payloads|
  {
    Machine.LittleEndian(ts, 8) + [|payloads| as byte] + LenTable(payloads)
  }

  /** A datagram laid out as the receiver expects it. */
  function Encode(ts: nat, payloads: seq<seq<byte>>): (d: seq<byte>)
    requires Encodable(ts, payloads)
    ensures |d| == TableStart + 2 * |payloads| + |Concat(payloads)|
  {
    Head(ts, payloads) + Concat(payloads)
  }

  lemma {:induction false} ConcatLength(payloads: seq<seq<byte>>)
    ensures |Concat(payloads)| == LenBefore(payloads, |payloads|)
  {
    if payloads != [] {
      ConcatLength(payloads[1..]);
      LenBeforeTail(payloads, |payloads|);
    }
  }

  /** Dropping the first payload shifts the running length by its size. */
  lemma {:induction false} LenBeforeTail(payloads: seq<seq<byte>>, n: nat)
    requires 1 <= n <= |payloads|
    ensures LenBefore(payloads, n) == |payloads[0]| + LenBefore(payloads[1..], n - 1)
  {
    if n > 1 {
      LenBeforeTail(payloads, n - 1);
    }
  }

  /** Entry `c` of the table holds the length of payload `c`. */
  lemma {:induction false} LenTableAt(payloads: seq<seq<byte>>, c: nat)
    requires c < |payloads|
    ensures LenTable(payloads)[2 * c..2 * c + 2] == Machine.LittleEndian(|payloads[c]|, 2)
  {
    var head := Machine.LittleEndian(|payloads[0]|, 2);
    var rest := LenTable(payloads[1..]);
    assert LenTable(payloads) == head + rest;
    if c > 0 {
      LenTableAt(payloads[1..], c - 1);
      assert payloads[1..][c - 1] == payloads[c];
      SliceAfter(head, rest, 2 * c, 2 * c + 2);
    } else {
      SliceBefore(head, rest, 0, 2);
    }
  }

  /** Payload `c` sits in the concatenation right after the earlier ones. */
  lemma {:induction false} ConcatAt(payloads: seq<seq<byte>>, c: nat)
    requires c < |payloads|
    ensures LenBefore(payloads, c) + |payloads[c]| <= |Concat(payloads)|
    ensures Concat(payloads)[LenBefore(payloads, c)..LenBefore(payloads, c) + |payloads[c]|] == payloads[c]
  {
    var h := |payloads[0]|;
    if c > 0 {
      ConcatAt(payloads[1..], c - 1);
      LenBeforeTail(payloads, c);
      var s := LenBefore(payloads[1..], c - 1);
      assert payloads[1..][c - 1] == payloads[c];
      SliceAfter(payloads[0], Concat(payloads[1..]), h + s, h + s + |payloads[c]|);
    } else {
      assert Concat(payloads)[..h] == payloads[0];
    }
  }

  /** A slice that lies in the second half of a concatenation. */
  lemma SliceAfter<T>(a: seq<T>, b: seq<T>, i: nat, j: nat)
    requires |a| <= i <= j <= |a| + |b|
    ensures (a + b)[i..j] == b[i - |a|..j - |a|]
  {
  }

  /** A slice that lies in the first half of a concatenation. */
  lemma SliceBefore<T>(a: seq<T>, b: seq<T>, i: nat, j: nat)
    requires i <= j <= |a|
    ensures (a + b)[i..j] == a[i..j]
  {
  }

  /** A buffer that begins with `e` agrees with it on every slice inside `e`. */
  lemma PrefixSlice(buf: seq<byte>, e: seq<byte>, i: nat, j: nat)
    requires |e| <= |buf| && buf[..|e|] == e && i <= j <= |e|
    ensures buf[i..j] == e[i..j]
  {
    forall k | i <= k < j
      ensures buf[k] == e[k]
    {
      assert buf[..|e|][k] == buf[k];
    }
  }

  /** A buffer that begins with the encoding of `payloads`: its table entries are their lengths. */
  lemma LenAtEncoded(buf: seq<byte>, ts: nat, payloads: seq<seq<byte>>, c: nat)
    requires Encodable(ts, payloads) && |Encode(ts, payloads)| <= |buf|
    requires buf[..|Encode(ts, payloads)|] == Encode(ts, payloads) && c < |payloads|
    ensures LenAt(buf, c) == |payloads[c]|
  {
    var h := Head(ts, payloads);
    var at := TableStart + 2 * c;
    PrefixSlice(buf, Encode(ts, payloads), at, at + 2);
    SliceBefore(h, Concat(payloads), at, at + 2);
    SliceAfter(Machine.LittleEndian(ts, 8) + [|payloads| as byte], LenTable(payloads), at, at + 2);
    LenTableAt(payloads, c);
    U16RoundTrip(|payloads[c]|);
  }

  /** Without 16-bit wrap-around the offset is the table end plus the earlier payloads. */
  lemma {:induction false} DataOffsetEncoded(buf: seq<byte>, ts: nat, payloads: seq<seq<byte>>, n: nat)
    requires Encodable(ts, payloads) && |Encode(ts, payloads)| <= |buf|
    requires buf[..|Encode(ts, payloads)|] == Encode(ts, payloads) && n <= |payloads|
    requires TableStart + 2 * |payloads| + LenBefore(payloads, n) < Machine.U16
    ensures DataOffset(buf, |payloads|, n) == TableStart + 2 * |payloads| + LenBefore(payloads, n)
  {
    if n > 0 {
      DataOffsetEncoded(buf, ts, payloads, n - 1);
      LenAtEncoded(buf, ts, payloads, n - 1);
    }
  }

  /** The first nine bytes of a buffer holding an encoding: the timestamp and the channel count. */
  lemma HeaderEncoded(buf: seq<byte>, ts: nat, payloads: seq<seq<byte>>)
    requires Encodable(ts, payloads) && |Encode(ts, payloads)| <= |buf|
    requires buf[..|Encode(ts, payloads)|] == Encode(ts, payloads)
    ensures Machine.FromLittleEndian(buf[..8]) == ts && buf[8] == |payloads|
  {
    var e := Encode(ts, payloads);
    PrefixSlice(buf, e, 0, 8);
    assert e[0..8] == Machine.LittleEndian(ts, 8);
    assert buf[..8] == buf[0..8];
    assert buf[8] == e[8];
    U64RoundTrip(ts);
  }

  /**
   * The wire round trip: a receive buffer that begins with an encoded
   * datagram no larger than the buffer yields, for every channel present,
   * the datagram's timestamp and exactly that channel's payload.
   */
  lemma ParseEncoded(buf: seq<byte>, ts: nat, payloads: seq<seq<byte>>, channelIdx: nat)
    requires Encodable(ts, payloads) && |buf| == MaxPacketSize && |Encode(ts, payloads)| <= |buf|
    requires buf[..|Encode(ts, payloads)|] == Encode(ts, payloads)
    requires channelIdx < |payloads|
    ensures var p := Parse(buf, channelIdx);
      && p.Some? && p.value.timestamp == ts
      && p.value.offset + p.value.len <= |Encode(ts, payloads)|
      && buf[p.value.offset..p.value.offset + p.value.len] == payloads[channelIdx]
  {
    HeaderEncoded(buf, ts, payloads);
    var o, l := PayloadEncoded(buf, ts, payloads, channelIdx);
    assert Parse(buf, channelIdx) == Some(Selection(ts, o, l));
  }

  /** Where the payload of channel `c` lies, and that the selection finds it there. */
  lemma PayloadEncoded(buf: seq<byte>, ts: nat, payloads: seq<seq<byte>>, c: nat) returns (o: nat, l: nat)
    requires Encodable(ts, payloads) && |buf| == MaxPacketSize && |Encode(ts, payloads)| <= |buf|
    requires buf[..|Encode(ts, payloads)|] == Encode(ts, payloads)
    requires c < |payloads|
    ensures DataOffset(buf, |payloads|, c) == o && LenAt(buf, c) == l
    ensures o + l <= |Encode(ts, payloads)| && buf[o..o + l] == payloads[c]
  {
    o := TableStart + 2 * |payloads| + LenBefore(payloads, c);
    l := |payloads[c]|;
    PayloadLocated(buf, ts, payloads, c);
    PayloadBytes(buf, ts, payloads, c);
  }

  /** The offset and length the receiver computes for payload `c` of an encoding. */
  lemma PayloadLocated(buf: seq<byte>, ts: nat, payloads: seq<seq<byte>>, c: nat)
    requires Encodable(ts, payloads) && |buf| == MaxPacketSize && |Encode(ts, payloads)| <= |buf|
    requires buf[..|Encode(ts, payloads)|] == Encode(ts, payloads)
    requires c < |payloads|
    ensures DataOffset(buf, |payloads|, c) == TableStart + 2 * |payloads| + LenBefore(payloads, c)
    ensures LenAt(buf, c) == |payloads[c]|
  {
    ConcatAt(payloads, c);
    DataOffsetEncoded(buf, ts, payloads, c);
    LenAtEncoded(buf, ts, payloads, c);
  }

  /** The bytes of payload `c` in a buffer that begins with the encoding. */
  lemma PayloadBytes(buf: seq<byte>, ts: nat, payloads: seq<seq<byte>>, c: nat)
    requires Encodable(ts, payloads) && |Encode(ts, payloads)| <= |buf|
    requires buf[..|Encode(ts, payloads)|] == Encode(ts, payloads)
    requires c < |payloads|
    ensures var o := TableStart + 2 * |payloads| + LenBefore(payloads, c);
      o + |payloads[c]| <= |Encode(ts, payloads)| && buf[o..o + |payloads[c]|] == payloads[c]
  {
    var e, h, cat := Encode(ts, payloads), Head(ts, payloads), Concat(payloads);
    assert e == h + cat;
    ConcatAt(payloads, c);
    PayloadSlice(buf, e, h, cat, LenBefore(payloads, c), payloads[c]);
  }

  /** A piece of the second half of an encoding, read from a buffer that begins with it. */
  lemma PayloadSlice(buf: seq<byte>, e: seq<byte>, h: seq<byte>, cat: seq<byte>, b: nat, p: seq<byte>)
    requires e == h + cat && |e| <= |buf| && buf[..|e|] == e
    requires b + |p| <= |cat| && cat[b..b + |p|] == p
    ensures buf[|h| + b..|h| + b + |p|] == p
  {
    PrefixSlice(buf, e, |h| + b, |h| + b + |p|);
    SliceAfter(h, cat, |h| + b, |h| + b + |p|);
  }

  /**
   * An index equal to the channel count passes the `>` test and reads one
   * entry past the table: with one channel whose payload is the bytes 1, 2,
   * the receiver for channel 1 takes those payload bytes as its length (513)
   * and hands the decoder 513 bytes from just past the datagram's end.
   */
  lemma ChannelCountIndexAccepted(buf: seq<byte>)
    requires |buf| == MaxPacketSize && buf[..13] == Encode(7, [[1, 2]])
    ensures Parse(buf, 1) == Some(Selection(7, 13, 513))
  {
    var ps: seq<seq<byte>> := [[1, 2]];
    HeaderEncoded(buf, 7, ps);
    LenAtEncoded(buf, 7, ps, 0);
    assert Encode(7, ps)[11..13] == [1, 2];
    PrefixSlice(buf, Encode(7, ps), 11, 13);
    var b: seq<byte> := [1, 2];
    assert Machine.FromLittleEndian(b[1..]) == 2;
    assert Machine.FromLittleEndian(b) == 513;
    assert LenAt(buf, 1) == 513;
    assert DataOffset(buf, 1, 1) == 13;
  }

  /**
   * The parse with the index check the table needs: an index equal to the
   * channel count is rejected as well, so only entries of the table are read.
   */
  function ParseChecked(buf: seq<byte>, channelIdx: nat): (r: Option<Selection>)
    requires |buf| == MaxPacketSize && channelIdx < Machine.U8
    ensures r.None? <==> channelIdx >= buf[8]
    ensures r.Some? ==> r == Parse(buf, channelIdx)
  {
    if channelIdx >= buf[8] then None else Parse(buf, channelIdx)
  }

  /**
   * On an encoded datagram the checked parse accepts exactly the channels
   * present, and each accepted selection is that channel's payload.
   */
  lemma ParseCheckedEncoded(buf: seq<byte>, ts: nat, payloads: seq<seq<byte>>, channelIdx: nat)
    requires Encodable(ts, payloads) && |buf| == MaxPacketSize && |Encode(ts, payloads)| <= |buf|
    requires buf[..|Encode(ts, payloads)|] == Encode(ts, payloads)
    requires channelIdx < Machine.U8
    ensures var p := ParseChecked(buf, channelIdx);
      && (p.Some? <==> channelIdx < |payloads|)
      && (p.Some? ==> p.value.timestamp == ts && p.value.offset + p.value.len <= |Encode(ts, payloads)|
                      && buf[p.value.offset..p.value.offset + p.value.len] == payloads[channelIdx])
  {
    HeaderEncoded(buf, ts, payloads);
    if channelIdx < |payloads| {
      ParseEncoded(buf, ts, payloads, channelIdx);
    }
  }
}
