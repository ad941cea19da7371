/**
 * c_shim/bundled/popuset_shim.cc: the audio-callback shim. Buffers handed
 * over by `pa_shim_queue` wait in `buffer_list`; the callback drains frames
 * from its front, one buffer after another, and retires used or unusable
 * buffers to `free_list`, from which `pa_shim_queue` recycles a buffer of
 * the same shape.
 */
module Shim {
  import opened Wrappers
  import Machine

  /** One sample per channel; the source interleaves these in a flat `float` array. */
  type Frame = seq<int>

  /** `buffer_t`: `data` is `None` for a NULL pointer. */
  datatype Buffer = Buffer(data: Option<seq<Frame>>, numFrames: nat, framesConsumed: nat, numChannels: nat)

  /** `pa_shim_stats_t`. */
  datatype Stats = Stats(bufferUnderruns: nat, totalConsumed: nat, inUnderrun: nat, buffersQueued: nat)

  /** A live buffer: allocated, holding `num_frames` frames, never consumed past its end. */
  predicate WellFormed(b: Buffer)
  {
    && b.data.Some?
    && |b.data.value| == b.numFrames
    && FramesOf(b.data.value, b.numChannels)
    && b.framesConsumed <= b.numFrames
    && b.numFrames < Machine.U32 && b.numChannels < Machine.U8
  }

  /** Every frame of `fs` holds `ch` samples. */
  predicate FramesOf(fs: seq<Frame>, ch: nat)
  {
    forall i :: 0 <= i < |fs| ==> |fs[i]| == ch
  }

  predicate AllWellFormed(bs: seq<Buffer>)
  {
    forall i :: 0 <= i < |bs| ==> WellFormed(bs[i])
  }

  function Min(a: nat, b: nat): nat { if a <= b then a else b }

  /** `free_buff`: the pointer becomes NULL and every count 0. */
  function FreeBuff(b: Buffer): (r: Buffer)
    ensures r.data.None? && r.numFrames == 0 && r.framesConsumed == 0 && r.numChannels == 0
  {
    Buffer(None, 0, 0, 0)
  }

  /** A buffer of the requested shape, which `pa_shim_queue` may reuse. */
  predicate Matches(b: Buffer, nframes: nat, nchannels: nat)
  {
    b.numFrames == nframes && b.numChannels == nchannels
  }

  /** The position of the first free-list buffer of the requested shape, if any. */
  function FirstMatch(fl: seq<Buffer>, nframes: nat, nchannels: nat): (k: Option<nat>)
    ensures k.Some? ==> k.value < |fl| && Matches(fl[k.value], nframes, nchannels)
    ensures k.Some? ==> forall i :: 0 <= i < k.value ==> !Matches(fl[i], nframes, nchannels)
    ensures k.None? ==> forall i :: 0 <= i < |fl| ==> !Matches(fl[i], nframes, nchannels)
  {
    if fl == [] then None
    else if Matches(fl[0], nframes, nchannels) then Some(0)
    else match FirstMatch(fl[1..], nframes, nchannels)
      case None => None
      case Some(k) => Some(k + 1)
  }

  /** Frames still to be played from a buffer. */
  function Unplayed(b: Buffer): nat
  {
    if b.framesConsumed <= b.numFrames then b.numFrames - b.framesConsumed else 0
  }

  /** The frames behind the mix horizon: the unplayed frames of every queued buffer. */
  function Pending(bs: seq<Buffer>): nat
  {
    if bs == [] then 0 else Unplayed(bs[0]) + Pending(bs[1..])
  }

  /** The unplayed frames of the queued buffers whose channel count is `ch`. */
  function PendingMatching(bs: seq<Buffer>, ch: nat): nat
  {
    if bs == [] then 0
    else (if bs[0].numChannels == ch then Unplayed(bs[0]) else 0) + PendingMatching(bs[1..], ch)
  }

  /** The `k` frames of `b` that follow the ones already played. */
  function Frames(b: Buffer, k: nat): (c: seq<Frame>)
    requires WellFormed(b) && b.framesConsumed + k <= b.numFrames
    ensures |c| == k
    ensures forall i :: 0 <= i < k ==> c[i] == b.data.value[b.framesConsumed + i]
  {
    b.data.value[b.framesConsumed .. b.framesConsumed + k]
  }

  /**
   * The effect of the callback's consume loop: the new `buffer_list`, the
   * buffers pushed onto the free list (front first), the frames written and
   * the samples copied out.
   */
  datatype DrainResult = DrainResult(list: seq<Buffer>, freed: seq<Buffer>, written: nat, samples: seq<Frame>)

  function Drain(bl: seq<Buffer>, need: nat, ch: nat): (d: DrainResult)
    requires AllWellFormed(bl)
    decreases |bl|
  {
    if need == 0 || bl == [] then DrainResult(bl, [], 0, [])
    else
      var b := bl[0];
      if b.numChannels != ch then
        var r := Drain(bl[1..], need, ch);
        DrainResult(r.list, r.freed + [b], r.written, r.samples)
      else
        var k := Min(need, b.numFrames - b.framesConsumed);
        var b2 := b.(framesConsumed := b.framesConsumed + k);
        var chunk := Frames(b, k);
        if b2.framesConsumed >= b2.numFrames then
          var r := Drain(bl[1..], need - k, ch);
          DrainResult(r.list, r.freed + [b2], r.written + k, chunk + r.samples)
        else
          DrainResult([b2] + bl[1..], [], k, chunk)
  }

  /**
   * The callback writes as many frames as were asked for, or every pending
   * frame of the buffers with the stream's channel count if that is fewer;
   * it copies out that many frames, each of the stream's channel count.
   */
  lemma {:induction false} DrainWritten(bl: seq<Buffer>, need: nat, ch: nat)
    requires AllWellFormed(bl)
    ensures Drain(bl, need, ch).written == Min(need, PendingMatching(bl, ch))
    ensures |Drain(bl, need, ch).samples| == Drain(bl, need, ch).written
    ensures FramesOf(Drain(bl, need, ch).samples, ch)
    decreases |bl|
  {
    if need > 0 && bl != [] {
      var b := bl[0];
      assert AllWellFormed(bl[1..]);
      var k := Min(need, b.numFrames - b.framesConsumed);
      if b.numChannels != ch {
        DrainWritten(bl[1..], need, ch);
      } else if b.framesConsumed + k >= b.numFrames {
        DrainWritten(bl[1..], need - k, ch);
      }
    }
  }

  /** The buffers left on the list are still live. */
  lemma {:induction false} DrainKeepsWellFormed(bl: seq<Buffer>, need: nat, ch: nat)
    requires AllWellFormed(bl)
    ensures AllWellFormed(Drain(bl, need, ch).list)
    decreases |bl|
  {
    if need > 0 && bl != [] {
      var b := bl[0];
      assert AllWellFormed(bl[1..]);
      var k := Min(need, b.numFrames - b.framesConsumed);
      if b.numChannels != ch {
        DrainKeepsWellFormed(bl[1..], need, ch);
      } else if b.framesConsumed + k >= b.numFrames {
        DrainKeepsWellFormed(bl[1..], need - k, ch);
      } else {
        var b2 := b.(framesConsumed := b.framesConsumed + k);
        assert AllWellFormed([b2] + bl[1..]);
      }
    }
  }

  /**
   * Frames are conserved: the pending frames of buffers with the stream's
   * channel count drop by exactly the frames written.
   */
  lemma {:induction false} DrainConserves(bl: seq<Buffer>, need: nat, ch: nat)
    requires AllWellFormed(bl)
    ensures PendingMatching(Drain(bl, need, ch).list, ch) + Drain(bl, need, ch).written == PendingMatching(bl, ch)
    decreases |bl|
  {
    if need > 0 && bl != [] {
      var b := bl[0];
      assert AllWellFormed(bl[1..]);
      var k := Min(need, b.numFrames - b.framesConsumed);
      if b.numChannels != ch {
        DrainConserves(bl[1..], need, ch);
      } else if b.framesConsumed + k >= b.numFrames {
        DrainConserves(bl[1..], need - k, ch);
      } else {
        var b2 := b.(framesConsumed := b.framesConsumed + k);
        assert ([b2] + bl[1..])[1..] == bl[1..];
      }
    }
  }

  /** A buffer the callback may retire: the wrong channel count for the stream, or used up. */
  predicate Spent(b: Buffer, ch: nat)
  {
    b.numChannels != ch || b.framesConsumed >= b.numFrames
  }

  /** Every buffer retired to the free list had the wrong channel count or was used up. */
  lemma {:induction false} DrainFreesOnlySpent(bl: seq<Buffer>, need: nat, ch: nat)
    requires AllWellFormed(bl)
    ensures forall i :: 0 <= i < |Drain(bl, need, ch).freed| ==> Spent(Drain(bl, need, ch).freed[i], ch)
    decreases |bl|
  {
    if need > 0 && bl != [] {
      var b := bl[0];
      assert AllWellFormed(bl[1..]);
      var k := Min(need, b.numFrames - b.framesConsumed);
      if b.numChannels != ch {
        DrainFreesOnlySpent(bl[1..], need, ch);
        AppendSpent(Drain(bl[1..], need, ch).freed, b, ch);
      } else if b.framesConsumed + k >= b.numFrames {
        DrainFreesOnlySpent(bl[1..], need - k, ch);
        AppendSpent(Drain(bl[1..], need - k, ch).freed, b.(framesConsumed := b.framesConsumed + k), ch);
      }
    }
  }

  lemma AppendSpent(fr: seq<Buffer>, b: Buffer, ch: nat)
    requires forall i :: 0 <= i < |fr| ==> Spent(fr[i], ch)
    requires Spent(b, ch)
    ensures forall i :: 0 <= i < |fr + [b]| ==> Spent((fr + [b])[i], ch)
  {
  }

  /** The shim's global state. */
  class ShimState {
    var bufferList: seq<Buffer>
    var freeList: seq<Buffer>
    var bufferUnderruns: nat
    var totalConsumed: nat
    var inUnderrun: nat
    var buffersQueued: nat
    var mute: bool

    ghost predicate Valid()
      reads this
    {
      && AllWellFormed(bufferList) && AllWellFormed(freeList)
      && bufferUnderruns < Machine.U64 && totalConsumed < Machine.U64
      && inUnderrun < Machine.U8 && buffersQueued < Machine.U32
    }

    /** The initial globals: empty lists, zero statistics, not muted. */
    constructor ()
      ensures Valid() && bufferList == [] && freeList == []
      ensures bufferUnderruns == 0 && totalConsumed == 0 && inUnderrun == 0 && buffersQueued == 0
      ensures !mute
    {
      bufferList, freeList := [], [];
      bufferUnderruns, totalConsumed, inUnderrun, buffersQueued := 0, 0, 0, 0;
      mute := false;
    }

    /** `pa_shim_set_mute`. */
    method SetMute(newMute: bool)
      modifies this`mute
      ensures mute == newMute
    {
      mute := newMute;
    }

    /**
     * `pa_shim_queue`: pops free-list buffers until one has the requested
     * shape, reusing it (rewound to frame 0) and freeing the ones popped
     * before it; with no match the whole free list is freed and a new buffer
     * is allocated. The first `nframes` frames of `data` are copied in
     * and the buffer is appended to `buffer_list`.
     */
    method Queue(data: seq<Frame>, nframes: nat, nchannels: nat) returns (recycled: bool)
      requires Valid() && nframes < Machine.U32 && nchannels < Machine.U8
      requires nframes <= |data| && FramesOf(data, nchannels)
      modifies this`bufferList, this`freeList
      ensures Valid()
      ensures var k := FirstMatch(old(freeList), nframes, nchannels);
        && recycled == k.Some?
        && freeList == (if k.Some? then old(freeList)[k.value + 1..] else [])
      ensures bufferList == old(bufferList) + [Buffer(Some(data[..nframes]), nframes, 0, nchannels)]
    {
      var newBuff := TakeReusable(nframes, nchannels);
      recycled := newBuff.data != None;
      if newBuff.data == None {
        newBuff := Buffer(Some(Silence(nframes, nchannels)), nframes, 0, nchannels);
      }
      newBuff := newBuff.(data := Some(data[..nframes]));
      bufferList := bufferList + [newBuff];
      assert AllWellFormed(bufferList) by {
        assert forall i :: 0 <= i < |old(bufferList)| ==> bufferList[i] == old(bufferList)[i];
      }
    }

    /**
     * The free-list scan of `pa_shim_queue`: pops buffers until one has the
     * requested shape and returns it rewound to frame 0, or a NULL buffer
     * once the free list runs out.
     */
    method TakeReusable(nframes: nat, nchannels: nat) returns (newBuff: Buffer)
      requires Valid()
      modifies this`freeList
      ensures Valid()
      ensures var k := FirstMatch(old(freeList), nframes, nchannels);
        && (k.None? ==> newBuff == Buffer(None, 0, 0, 0) && freeList == [])
        && (k.Some? ==> newBuff == old(freeList)[k.value].(framesConsumed := 0)
                        && newBuff.data.Some? && freeList == old(freeList)[k.value + 1..])
    {
      newBuff := Buffer(None, 0, 0, 0);
      ghost var fl0 := freeList;
      ghost var popped := 0;
      while freeList != []
        invariant Valid() && popped <= |fl0| && freeList == fl0[popped..]
        invariant forall i :: 0 <= i < popped ==> !Matches(fl0[i], nframes, nchannels)
        invariant newBuff == Buffer(None, 0, 0, 0)
        decreases |freeList|
      {
        var buff := freeList[0];
        freeList := freeList[1..];
        popped := popped + 1;
        if buff.numFrames == nframes && buff.numChannels == nchannels {
          newBuff := buff.(framesConsumed := 0);
          assert FirstMatch(fl0, nframes, nchannels) == Some(popped - 1);
          return;
        } else {
          buff := FreeBuff(buff);
        }
      }
      assert FirstMatch(fl0, nframes, nchannels).None?;
    }

    /** `pa_shim_get_mix_horizon`'s frame count: the 32-bit sum of the unplayed frames. */
    method MixHorizonFrames() returns (numFrames: nat)
      requires Valid()
      ensures numFrames == Pending(bufferList) % Machine.U32
    {
      numFrames := 0;
      var i := 0;
      while i < |bufferList|
        invariant 0 <= i <= |bufferList|
        invariant numFrames == (Pending(bufferList) - Pending(bufferList[i..])) % Machine.U32
      {
        var buff := bufferList[i];
        PendingStep(bufferList, i);
        Machine.WrapAdd(Pending(bufferList) - Pending(bufferList[i..]), Unplayed(buff),
                        Pending(bufferList) - Pending(bufferList[i + 1..]), Machine.U32);
        numFrames := (numFrames + (buff.numFrames - buff.framesConsumed)) % Machine.U32;
        i := i + 1;
      }
      assert bufferList[i..] == [];
    }

    /** `pa_shim_get_stats`: records the queue length (as a `uint32_t`) and returns the statistics. */
    method GetStats() returns (s: Stats)
      requires Valid()
      modifies this`buffersQueued
      ensures Valid() && buffersQueued == |bufferList| % Machine.U32
      ensures s == Stats(bufferUnderruns, totalConsumed, inUnderrun, buffersQueued)
    {
      buffersQueued := |bufferList| % Machine.U32;
      s := Stats(bufferUnderruns, totalConsumed, inUnderrun, buffersQueued);
    }

    /**
     * `pa_shim_processcb` for a stream of `channels` channels asking for
     * `frameCount` frames; `hasOutput` is `output != NULL`. Drains buffers as
     * `Drain` says, counts an underrun when fewer frames were available, and
     * pads (or, when muted, replaces) the output with silence.
     */
    method ProcessCallback(frameCount: nat, channels: nat, hasOutput: bool) returns (out: seq<Frame>, writeIdx: nat)
      requires Valid()
      modifies this`bufferList, this`freeList, this`bufferUnderruns, this`totalConsumed, this`inUnderrun
      ensures Valid()
      ensures !hasOutput ==>
        && out == [] && writeIdx == 0
        && bufferList == old(bufferList) && freeList == old(freeList)
        && bufferUnderruns == old(bufferUnderruns) && totalConsumed == old(totalConsumed)
        && inUnderrun == old(inUnderrun)
      ensures hasOutput ==>
        var d := Drain(old(bufferList), frameCount, channels);
        && writeIdx == d.written <= frameCount
        && bufferList == d.list && freeList == d.freed + old(freeList)
        && totalConsumed == Machine.Wrap(old(totalConsumed) + d.written, Machine.U64)
        && (d.written < frameCount ==>
              bufferUnderruns == Machine.Wrap(old(bufferUnderruns) + 1, Machine.U64) && inUnderrun == 1)
        && (d.written == frameCount ==> bufferUnderruns == old(bufferUnderruns) && inUnderrun == 0)
        && out == (if mute then Silence(frameCount, channels)
                   else d.samples + Silence(frameCount - d.written, channels))
    {
      out := [];
      writeIdx := 0;
      if !hasOutput {
        return;
      }
      DrainWritten(old(bufferList), frameCount, channels);
      out, writeIdx := DrainBuffers(frameCount, channels);
      if writeIdx < frameCount {
        bufferUnderruns := Machine.Wrap(bufferUnderruns + 1, Machine.U64);
        inUnderrun := 1;
        out := out + Silence(frameCount - writeIdx, channels);
      } else {
        inUnderrun := 0;
        assert Silence(0, channels) == [];
      }
      if mute {
        out := Silence(frameCount, channels);
      }
    }

    /** The consume loop of `pa_shim_processcb`, which `Drain` specifies. */
    method DrainBuffers(frameCount: nat, channels: nat) returns (out: seq<Frame>, writeIdx: nat)
      requires Valid()
      modifies this`bufferList, this`freeList, this`totalConsumed
      ensures Valid()
      ensures var d := Drain(old(bufferList), frameCount, channels);
        && writeIdx == d.written
        && bufferList == d.list && freeList == d.freed + old(freeList)
        && totalConsumed == Machine.Wrap(old(totalConsumed) + d.written, Machine.U64)
        && (!mute ==> out == d.samples)
    {
      out := [];
      writeIdx := 0;
      ghost var fl0, tc0 := freeList, totalConsumed;
      ghost var d0 := Drain(bufferList, frameCount, channels);
      var muted := mute;
      var rest := frameCount;
      ghost var sum := tc0;
      while writeIdx < frameCount && bufferList != []
        invariant Valid() && writeIdx <= frameCount && muted == mute && rest == frameCount - writeIdx
        invariant DrainedSoFar(d0, fl0, bufferList, freeList, rest, channels, writeIdx, out, muted)
        invariant sum == tc0 + writeIdx && totalConsumed == Machine.Wrap(sum, Machine.U64)
        decreases frameCount - writeIdx, |bufferList|
      {
        var chunk, consumed := ConsumeFront(rest, channels, d0, fl0, writeIdx, out, muted);
        if !muted {
          out := out + chunk;
        }
        Machine.WrapAdd(sum, consumed, sum + consumed, Machine.U64);
        totalConsumed := Machine.Wrap(totalConsumed + consumed, Machine.U64);
        writeIdx := writeIdx + consumed;
        rest := rest - consumed;
        sum := sum + consumed;
      }
    }

    /**
     * One pass of the consume loop: the front buffer is taken off
     * `buffer_list`; one with the wrong channel count goes straight to the
     * free list, otherwise up to `need` of its frames are copied out and it
     * goes to the free list when used up, or back to the front when not.
     */
    method ConsumeFront(need: nat, channels: nat, ghost d0: DrainResult, ghost fl0: seq<Buffer>,
                        ghost written: nat, ghost out: seq<Frame>, ghost muted: bool)
      returns (chunk: seq<Frame>, consumed: nat)
      requires Valid() && need > 0 && bufferList != []
      requires DrainedSoFar(d0, fl0, bufferList, freeList, need, channels, written, out, muted)
      modifies this`bufferList, this`freeList
      ensures Valid() && consumed <= need
      ensures consumed > 0 || |bufferList| < |old(bufferList)|
      ensures DrainedSoFar(d0, fl0, bufferList, freeList, need - consumed, channels, written + consumed,
                           if muted then out else out + chunk, muted)
    {
      ghost var bl1 := bufferList;
      var buff := bufferList[0];
      bufferList := bufferList[1..];
      assert AllWellFormed(bufferList);
      if buff.numChannels != channels {
        RetireMismatched(buff, need, channels, d0, fl0, bl1, written, out, muted);
        chunk, consumed := [], 0;
      } else {
        chunk, consumed := ConsumeFrames(buff, need, channels, d0, fl0, bl1, written, out, muted);
      }
    }

    /** A popped buffer with the wrong channel count is pushed onto the free list. */
    method RetireMismatched(buff: Buffer, need: nat, channels: nat, ghost d0: DrainResult, ghost fl0: seq<Buffer>,
                            ghost bl1: seq<Buffer>, ghost written: nat, ghost out: seq<Frame>, ghost muted: bool)
      requires bl1 != [] && buff == bl1[0] && bufferList == bl1[1..] && need > 0
      requires buff.numChannels != channels
      requires Valid()
      requires DrainedSoFar(d0, fl0, bl1, freeList, need, channels, written, out, muted)
      modifies this`freeList
      ensures Valid() && freeList == [buff] + old(freeList)
      ensures DrainedSoFar(d0, fl0, bufferList, freeList, need, channels, written, out, muted)
    {
      SkipStep(d0, fl0, bl1, freeList, need, channels, written, out, muted);
      freeList := [buff] + freeList;
      assert AllWellFormed(freeList) by {
        assert forall i :: 1 <= i < |freeList| ==> freeList[i] == old(freeList)[i - 1];
      }
    }

    /**
     * The matching-channels half of a consume pass: `buff`, already popped
     * off `buffer_list`, gives up to `need` frames and is retired to the
     * free list when used up or pushed back at the front when not.
     */
    method ConsumeFrames(buff: Buffer, need: nat, channels: nat, ghost d0: DrainResult, ghost fl0: seq<Buffer>,
                         ghost bl1: seq<Buffer>, ghost written: nat, ghost out: seq<Frame>, ghost muted: bool)
      returns (chunk: seq<Frame>, consumed: nat)
      requires bl1 != [] && buff == bl1[0] && bufferList == bl1[1..] && need > 0
      requires buff.numChannels == channels
      requires Valid()
      requires DrainedSoFar(d0, fl0, bl1, freeList, need, channels, written, out, muted)
      modifies this`bufferList, this`freeList
      ensures Valid() && consumed <= need
      ensures var k := Min(need, buff.numFrames - buff.framesConsumed);
        var b2 := buff.(framesConsumed := buff.framesConsumed + k);
        && consumed == k
        && chunk == Frames(buff, k)
        && (b2.framesConsumed >= b2.numFrames ==>
              bufferList == old(bufferList) && freeList == [b2] + old(freeList))
        && (b2.framesConsumed < b2.numFrames ==>
              bufferList == [b2] + old(bufferList) && freeList == old(freeList))
      ensures consumed > 0 || |bufferList| < |bl1|
      ensures DrainedSoFar(d0, fl0, bufferList, freeList, need - consumed, channels, written + consumed,
                           if muted then out else out + chunk, muted)
    {
      TakeStep(d0, fl0, bl1, freeList, need, channels, written, out, muted);
      consumed := Min(need, buff.numFrames - buff.framesConsumed);
      chunk := Frames(buff, consumed);
      var b2 := buff.(framesConsumed := buff.framesConsumed + consumed);
      if b2.framesConsumed >= b2.numFrames {
        freeList := [b2] + freeList;
        assert AllWellFormed(freeList) by {
          assert forall i :: 1 <= i < |freeList| ==> freeList[i] == old(freeList)[i - 1];
        }
      } else {
        bufferList := [b2] + bufferList;
      }
    }
  }

  /**
   * The consume loop's invariant: what is still to be drained from `bl`,
   * added to what has been done, is the whole drain `d0` that started from
   * the free list `fl0`.
   */
  ghost predicate DrainedSoFar(d0: DrainResult, fl0: seq<Buffer>, bl: seq<Buffer>, fl: seq<Buffer>,
                               need: nat, ch: nat, written: nat, out: seq<Frame>, mute: bool)
  {
    && AllWellFormed(bl)
    && var d := Drain(bl, need, ch);
    && d0.list == d.list && d0.freed + fl0 == d.freed + fl
    && d0.written == written + d.written
    && (!mute ==> d0.samples == out + d.samples)
  }

  /** A front buffer with the wrong channel count moves to the free list and nothing is drained. */
  lemma SkipStep(d0: DrainResult, fl0: seq<Buffer>, bl: seq<Buffer>, fl: seq<Buffer>,
                 need: nat, ch: nat, written: nat, out: seq<Frame>, muted: bool)
    requires DrainedSoFar(d0, fl0, bl, fl, need, ch, written, out, muted)
    requires bl != [] && need > 0 && bl[0].numChannels != ch
    ensures DrainedSoFar(d0, fl0, bl[1..], [bl[0]] + fl, need, ch, written, out, muted)
  {
    assert AllWellFormed(bl[1..]);
    var r := Drain(bl[1..], need, ch);
    assert (r.freed + [bl[0]]) + fl == r.freed + ([bl[0]] + fl);
  }

  /**
   * A matching front buffer gives up to `need` frames; used up, it moves to
   * the free list, otherwise it stays at the front with its new position.
   */
  lemma TakeStep(d0: DrainResult, fl0: seq<Buffer>, bl: seq<Buffer>, fl: seq<Buffer>,
                 need: nat, ch: nat, written: nat, out: seq<Frame>, muted: bool)
    requires DrainedSoFar(d0, fl0, bl, fl, need, ch, written, out, muted)
    requires bl != [] && need > 0 && bl[0].numChannels == ch
    ensures var b := bl[0];
      var k := Min(need, b.numFrames - b.framesConsumed);
      var b2 := b.(framesConsumed := b.framesConsumed + k);
      var out2 := if muted then out else out + Frames(b, k);
      && (b2.framesConsumed >= b2.numFrames ==>
            DrainedSoFar(d0, fl0, bl[1..], [b2] + fl, need - k, ch, written + k, out2, muted))
      && (b2.framesConsumed < b2.numFrames ==>
            DrainedSoFar(d0, fl0, [b2] + bl[1..], fl, need - k, ch, written + k, out2, muted))
  {
    var b := bl[0];
    var k := Min(need, b.numFrames - b.framesConsumed);
    var b2 := b.(framesConsumed := b.framesConsumed + k);
    var chunk := Frames(b, k);
    assert AllWellFormed(bl[1..]);
    if b2.framesConsumed >= b2.numFrames {
      var r := Drain(bl[1..], need - k, ch);
      assert (r.freed + [b2]) + fl == r.freed + ([b2] + fl);
      if !muted {
        assert out + (chunk + r.samples) == (out + chunk) + r.samples;
      }
    } else {
      assert AllWellFormed([b2] + bl[1..]);
    }
  }

  function Silence(n: nat, ch: nat): (z: seq<Frame>)
    ensures |z| == n && forall i :: 0 <= i < n ==> |z[i]| == ch && forall c :: 0 <= c < ch ==> z[i][c] == 0
  {
    seq(n, _ => seq(ch, _ => 0))
  }

  lemma PendingStep(bs: seq<Buffer>, i: nat)
    requires i < |bs|
    ensures Pending(bs[i..]) == Unplayed(bs[i]) + Pending(bs[i + 1..])
    ensures Pending(bs[i..]) <= Pending(bs)
  {
    assert bs[i..][1..] == bs[i + 1..];
    PendingSuffix(bs, i);
  }

  lemma {:induction false} PendingSuffix(bs: seq<Buffer>, i: nat)
    requires i <= |bs|
    ensures Pending(bs[i..]) <= Pending(bs)
  {
    if i > 0 {
      assert bs[1..][i - 1..] == bs[i..];
      PendingSuffix(bs[1..], i - 1);
    }
  }
}
