/**
 * receiver/mixer.c: the receiver's queue of decoded packets. A fixed ring of
 * 100 packet slots is filled by `queue_packet` as packets arrive and drained
 * by `next_packet`, which only releases a packet whose presentation time is
 * within one buffer's duration of the host clock.
 */
module Mixer {
  import opened Wrappers
  import Machine
  import opened Circular

  const NUM_PACKETS: nat := 100
  const BUFFSIZE: nat := 480
  const SAMPLERATE: nat := 48000
  /** Consecutive packets are stamped 10 ms apart. */
  const PACKET_PERIOD: nat := 10000000
  /** `buff_time`: one buffer's duration in ns, with the source's integer division. */
  const BUFF_TIME: nat := BUFFSIZE * (1000000000 / SAMPLERATE)

  lemma BuffTimeValue()
    ensures BUFF_TIME == 9999840
  {
  }

  /** A packet slot: its presentation time in ns and its decoded samples. */
  datatype Packet = Packet(timestamp: nat, decoded: seq<int>)

  predicate WellFormed(p: Packet)
  {
    p.timestamp < Machine.U64 && |p.decoded| == BUFFSIZE
  }

  /** The earliest host time at which `p` is released (`timestamp - buff_time` in 64 bits). */
  function Earliest(p: Packet): (t: nat)
    ensures t < Machine.U64
  {
    Machine.Wrap(p.timestamp - BUFF_TIME, Machine.U64)
  }

  /** The latest host time at which `p` is still played (`timestamp + buff_time` in 64 bits). */
  function Latest(p: Packet): (t: nat)
    ensures t < Machine.U64
  {
    Machine.Wrap(p.timestamp + BUFF_TIME, Machine.U64)
  }

  /** What `queue_packet` stores: an FEC packet first when the timestamp jumps, then the packet. */
  function Inserted(last: nat, timestamp: nat, fec: seq<int>, samples: seq<int>): (ps: seq<Packet>)
    ensures 1 <= |ps| <= 2 && ps[|ps| - 1] == Packet(timestamp, samples)
  {
    if timestamp != Machine.Wrap(last + PACKET_PERIOD, Machine.U64) then
      [Packet(Machine.Wrap(timestamp - PACKET_PERIOD, Machine.U64), fec), Packet(timestamp, samples)]
    else
      [Packet(timestamp, samples)]
  }

  /** The outcome of one `next_packet` call on a queue: how many packets it consumed and what it returned. */
  datatype Release = Release(consumed: nat, packet: Option<Packet>)

  /**
   * `next_packet` on the queue `q`, where `clock[k]` is the host time read
   * while inspecting the `k`-th packet.
   */
  function Released(q: seq<Packet>, clock: seq<nat>): (r: Release)
    requires |clock| >= |q|
    ensures r.consumed <= |q|
  {
    if q == [] then Release(0, None)
    else if clock[0] < Earliest(q[0]) then Release(0, None)
    else if clock[0] > Latest(q[0]) then
      var rest := Released(q[1..], clock[1..]);
      Release(rest.consumed + 1, rest.packet)
    else Release(1, Some(q[0]))
  }

  /** The packets `next_packet` skips: every one was already too late when inspected. */
  function Skipped(r: Release): nat
  {
    if r.packet.Some? && r.consumed > 0 then r.consumed - 1 else r.consumed
  }

  lemma {:induction false} ReleasedSkipsOnlyLate(q: seq<Packet>, clock: seq<nat>, i: nat)
    requires |clock| >= |q| && i < Skipped(Released(q, clock))
    ensures clock[i] > Latest(q[i])
  {
    if i > 0 {
      ReleasedSkipsOnlyLate(q[1..], clock[1..], i - 1);
    }
  }

  /** A packet `next_packet` returns is the last one it consumed, and it was in its window. */
  lemma {:induction false} ReleasedIsDue(q: seq<Packet>, clock: seq<nat>)
    requires |clock| >= |q|
    ensures var r := Released(q, clock);
      r.packet.Some? ==>
        && r.consumed >= 1
        && r.packet.value == q[r.consumed - 1]
        && Earliest(q[r.consumed - 1]) <= clock[r.consumed - 1] <= Latest(q[r.consumed - 1])
  {
    if q != [] && clock[0] >= Earliest(q[0]) && clock[0] > Latest(q[0]) {
      ReleasedIsDue(q[1..], clock[1..]);
    }
  }

  /** When `next_packet` returns nothing, the queue ran out or its head is still early. */
  lemma {:induction false} ReleasedNothingIsEarly(q: seq<Packet>, clock: seq<nat>)
    requires |clock| >= |q|
    ensures var r := Released(q, clock);
      r.packet.None? ==> r.consumed == |q| || clock[r.consumed] < Earliest(q[r.consumed])
  {
    if q != [] && clock[0] >= Earliest(q[0]) && clock[0] > Latest(q[0]) {
      ReleasedNothingIsEarly(q[1..], clock[1..]);
    }
  }

  /** The receiver's mixer state: the packet ring and its indices. */
  class PacketQueue {
    var packets: array<Packet>
    var readIdx: int
    var writeIdx: int
    var lastTimestamp: nat
    var inUnderrun: int

    ghost predicate Valid()
      reads this, packets
    {
      && packets.Length == NUM_PACKETS
      && 0 <= readIdx < NUM_PACKETS && 0 <= writeIdx < NUM_PACKETS
      && lastTimestamp < Machine.U64
      && forall i :: 0 <= i < NUM_PACKETS ==> WellFormed(packets[i])
    }

    /**
     * `init_mixer` and the globals' initial values: both indices 0, the last
     * timestamp 0 and `in_underrun` 1. The slots are uninitialised memory,
     * given as `junk`.
     */
    constructor (junk: seq<Packet>)
      requires |junk| == NUM_PACKETS && forall i :: 0 <= i < |junk| ==> WellFormed(junk[i])
      ensures Valid() && fresh(packets) && packets[..] == junk
      ensures readIdx == 0 && writeIdx == 0 && lastTimestamp == 0 && inUnderrun == 1
    {
      packets := new Packet[NUM_PACKETS](i requires 0 <= i < NUM_PACKETS => junk[i]);
      readIdx, writeIdx := 0, 0;
      lastTimestamp := 0;
      inUnderrun := 1;
    }

    /** The number of queued packets: the write index's distance ahead of the read index. */
    function Queued(): (n: nat)
      reads this
      requires 0 <= readIdx < NUM_PACKETS && 0 <= writeIdx < NUM_PACKETS
      ensures n < NUM_PACKETS && n == Offset(writeIdx, readIdx, NUM_PACKETS)
    {
      Offset(writeIdx, readIdx, NUM_PACKETS)
    }

    /** The queued packets, oldest first. */
    ghost function Queue(): (q: seq<Packet>)
      reads this, packets
      requires Valid()
      ensures |q| == Queued()
    {
      Window(packets[..], readIdx, Queued())
    }

    /** `packets_queued`: C's `%`, then adds 100 while negative. */
    method PacketsQueued() returns (val: int)
      requires Valid()
      ensures val == Queued() && val == (writeIdx - readIdx) % NUM_PACKETS
    {
      val := Machine.CRem(writeIdx - readIdx, NUM_PACKETS);
      ModOnce(writeIdx - readIdx, NUM_PACKETS);
      assert val == writeIdx - readIdx;
      while val < 0
        invariant val == writeIdx - readIdx || (writeIdx < readIdx && val == writeIdx - readIdx + NUM_PACKETS)
        decreases -val
      {
        val := val + NUM_PACKETS;
      }
    }

    /** Stores `p` in the slot at the write index and advances it. */
    method Push(p: Packet)
      requires Valid() && WellFormed(p) && Queued() + 1 < NUM_PACKETS
      modifies this`writeIdx, packets
      ensures Valid() && writeIdx == Slot(old(writeIdx), 1, NUM_PACKETS)
      ensures packets[..] == Overwrite(old(packets[..]), old(writeIdx), [p])
      ensures Queued() == old(Queued()) + 1 && Queue() == old(Queue()) + [p]
    {
      ghost var d := packets[..];
      assert writeIdx == Slot(readIdx, Queued(), NUM_PACKETS);
      PushSlot(d, readIdx, Queued(), p);
      packets[writeIdx] := p;
      writeIdx := (writeIdx + 1) % NUM_PACKETS;
      SlotIsMod(old(writeIdx), 1, NUM_PACKETS);
      assert packets[..] == d[old(writeIdx) := p];
    }

    /**
     * `queue_packet`: refuses, changing nothing, when 98 or more packets are
     * queued (room is kept for two); otherwise appends an FEC packet stamped
     * one period earlier when the timestamp does not follow the last one,
     * then the packet itself, and remembers its timestamp. `fec` and
     * `samples` are the decoder's output for the two decodes.
     */
    method QueuePacket(timestamp: nat, fec: seq<int>, samples: seq<int>) returns (res: Option<Packet>)
      requires Valid() && timestamp < Machine.U64
      requires |fec| == BUFFSIZE && |samples| == BUFFSIZE
      modifies this`writeIdx, this`lastTimestamp, packets
      ensures Valid()
      ensures res.None? <==> old(Queued()) >= NUM_PACKETS - 2
      ensures res.None? ==>
        writeIdx == old(writeIdx) && lastTimestamp == old(lastTimestamp) && packets[..] == old(packets[..])
      ensures res.Some? ==> res.value == Packet(timestamp, samples) && lastTimestamp == timestamp
      ensures res.Some? ==>
        var ins := Inserted(old(lastTimestamp), timestamp, fec, samples);
        && packets[..] == Overwrite(old(packets[..]), old(writeIdx), ins)
        && writeIdx == Slot(old(writeIdx), |ins|, NUM_PACKETS)
        && Queue() == old(Queue()) + ins
    {
      var queued := PacketsQueued();
      if queued >= NUM_PACKETS - 2 {
        return None;
      }
      ghost var ins := Inserted(lastTimestamp, timestamp, fec, samples);
      if timestamp != Machine.Wrap(lastTimestamp + PACKET_PERIOD, Machine.U64) {
        var stamped := Machine.Wrap(timestamp - PACKET_PERIOD, Machine.U64);
        ghost var d0, w0, q0 := packets[..], writeIdx, Queue();
        Push(Packet(stamped, fec));
        Push(Packet(timestamp, samples));
        OverwriteTwice(d0, w0, Packet(stamped, fec), Packet(timestamp, samples));
        assert Slot(Slot(w0, 1, NUM_PACKETS), 1, NUM_PACKETS) == Slot(w0, 2, NUM_PACKETS);
      } else {
        Push(Packet(timestamp, samples));
      }
      lastTimestamp := timestamp;
      res := Some(Packet(timestamp, samples));
    }

    /**
     * `next_packet`: returns the next packet due for presentation, skipping
     * (and consuming) packets that are already too late; nothing is consumed
     * when the head packet is still too early. `clock` holds the host-clock
     * readings, one per packet inspected.
     */
    method NextPacket(clock: seq<nat>) returns (res: Option<Packet>)
      requires Valid() && |clock| >= Queued()
      modifies this`readIdx
      ensures Valid()
      ensures var r := Released(old(Queue()), clock);
        && res == r.packet
        && readIdx == Slot(old(readIdx), r.consumed, NUM_PACKETS)
        && Queue() == old(Queue())[r.consumed..]
      decreases Queued()
    {
      var queued := PacketsQueued();
      if queued == 0 {
        return None;
      }
      ghost var q0 := Queue();
      var p := packets[readIdx];
      assert p == q0[0];
      var currTime := clock[0];
      if currTime < Machine.Wrap(p.timestamp - BUFF_TIME, Machine.U64) {
        assert Released(q0, clock) == Release(0, None);
        return None;
      }
      ghost var r0 := readIdx;
      ConsumeHead();
      if currTime > Machine.Wrap(p.timestamp + BUFF_TIME, Machine.U64) {
        res := NextPacket(clock[1..]);
        LateHeadSkipped(q0, clock, r0, res, readIdx, Queue());
        return;
      }
      assert Released(q0, clock) == Release(1, Some(p));
      res := Some(p);
    }

    /** Consumes the head packet: `packet_read_idx = (packet_read_idx + 1) % NUM_PACKETS`. */
    method ConsumeHead()
      requires Valid() && Queued() > 0
      modifies this`readIdx
      ensures Valid() && readIdx == Slot(old(readIdx), 1, NUM_PACKETS)
      ensures Queued() == old(Queued()) - 1 && Queue() == old(Queue())[1..]
    {
      PopSlot(packets[..], readIdx, Queued());
      readIdx := (readIdx + 1) % NUM_PACKETS;
      SlotIsMod(old(readIdx), 1, NUM_PACKETS);
    }

    /**
     * `mixer_callback`'s bookkeeping: exits on a wrong buffer size; otherwise
     * outputs the next due packet's samples, or silence, and sets
     * `in_underrun` to 1 exactly when there was no packet.
     */
    method MixerCallback(framesPerBuffer: nat, clock: seq<nat>) returns (exited: bool, out: seq<int>)
      requires Valid() && |clock| >= Queued()
      modifies this`readIdx, this`inUnderrun
      ensures Valid()
      ensures exited <==> framesPerBuffer != BUFFSIZE
      ensures exited ==> readIdx == old(readIdx) && inUnderrun == old(inUnderrun) && out == []
      ensures !exited ==>
        var r := Released(old(Queue()), clock);
        && inUnderrun == (if r.packet.None? then 1 else 0)
        && out == (if r.packet.None? then Zeros(BUFFSIZE) else r.packet.value.decoded)
        && Queue() == old(Queue())[r.consumed..]
    {
      if framesPerBuffer != BUFFSIZE {
        return true, [];
      }
      exited := false;
      ghost var q0 := Queue();
      var p := NextPacket(clock);
      if p == None {
        inUnderrun := 1;
        out := Zeros(BUFFSIZE);
      } else {
        inUnderrun := 0;
        ReleasedIsDue(q0, clock);
        ghost var r := Released(q0, clock);
        assert p.value == q0[r.consumed - 1];
        assert WellFormed(p.value);
        out := p.value.decoded[..BUFFSIZE];
      }
    }
  }

  /**
   * When the head packet is late, `next_packet` is the recursive call on
   * the rest of the queue, with one more packet consumed.
   */
  lemma LateHeadSkipped(q0: seq<Packet>, clock: seq<nat>, r0: nat, res: Option<Packet>, r2: nat, q2: seq<Packet>)
    requires q0 != [] && |clock| >= |q0| && r0 < NUM_PACKETS && |q0| < NUM_PACKETS
    requires Earliest(q0[0]) <= clock[0] && clock[0] > Latest(q0[0])
    requires var rest := Released(q0[1..], clock[1..]);
      && res == rest.packet
      && r2 == Slot(Slot(r0, 1, NUM_PACKETS), rest.consumed, NUM_PACKETS)
      && q2 == q0[1..][rest.consumed..]
    ensures var r := Released(q0, clock);
      && res == r.packet
      && r2 == Slot(r0, r.consumed, NUM_PACKETS)
      && q2 == q0[r.consumed..]
  {
    var rest := Released(q0[1..], clock[1..]);
    assert Released(q0, clock) == Release(rest.consumed + 1, rest.packet);
    assert q0[1..][rest.consumed..] == q0[rest.consumed + 1..];
  }
}
