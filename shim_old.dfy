/**
 * c_shim/bundled/popuset_shim_old.cc: the earlier, timestamp-driven shim.
 * Buffers carry a presentation time in samples; the queue drops buffers that
 * end before the last presentation end and prunes stale ones from the front,
 * and the callback copies, from the buffers overlapping its window, the
 * frames that fall inside it. All arithmetic is on `uint64_t`.
 */
module ShimOld {
  import Machine

  /**
   * `TimestampedBuffer` of timely_mixer.h (its last field, `presentation_time`,
   * is the `timestamp` the shim reads). The samples themselves are not needed
   * to decide which frames are copied.
   */
  datatype TimestampedBuffer = TimestampedBuffer(nframes: nat, nchannels: nat, timestamp: nat)

  predicate WellFormed(b: TimestampedBuffer)
  {
    b.nframes < Machine.U32 && b.nchannels < Machine.U8 && b.timestamp < Machine.U64
  }

  predicate AllWellFormed(bl: seq<TimestampedBuffer>)
  {
    forall i :: 0 <= i < |bl| ==> WellFormed(bl[i])
  }

  /** The 64-bit end time of a buffer. */
  function End(b: TimestampedBuffer): nat
  {
    Machine.Wrap(b.timestamp + b.nframes, Machine.U64)
  }

  function Min(a: nat, b: nat): nat { if a <= b then a else b }

  // ---------------------------------------------------------------- queueing

  /** The front-pruning loop: pop buffers while they end before `horizon`. */
  function Pruned(bl: seq<TimestampedBuffer>, horizon: nat): (r: seq<TimestampedBuffer>)
    ensures |r| <= |bl|
    ensures r != [] ==> End(r[0]) >= horizon
  {
    if bl == [] || End(bl[0]) >= horizon then bl
    else Pruned(bl[1..], horizon)
  }

  /** Pruning only pops from the front: what is left is a suffix of the list. */
  lemma {:induction false} PrunedIsSuffix(bl: seq<TimestampedBuffer>, horizon: nat)
    ensures Pruned(bl, horizon) == bl[|bl| - |Pruned(bl, horizon)|..]
  {
    if bl != [] && End(bl[0]) < horizon {
      PrunedIsSuffix(bl[1..], horizon);
      assert bl[1..][|bl| - 1 - |Pruned(bl, horizon)|..] == bl[|bl| - |Pruned(bl, horizon)|..];
    }
  }

  /** Every buffer the pruning loop pops ended before the horizon. */
  lemma {:induction false} PrunedDropsOnlyStale(bl: seq<TimestampedBuffer>, horizon: nat, i: nat)
    requires i < |bl| - |Pruned(bl, horizon)|
    ensures End(bl[i]) < horizon
  {
    if i > 0 {
      PrunedDropsOnlyStale(bl[1..], horizon, i - 1);
    }
  }

  /** A buffer that does not itself end before the horizon stops the pruning. */
  lemma {:induction false} PrunedKeepsLast(bl: seq<TimestampedBuffer>, b: TimestampedBuffer, horizon: nat)
    requires End(b) >= horizon
    ensures Pruned(bl + [b], horizon) != []
    ensures Pruned(bl + [b], horizon)[|Pruned(bl + [b], horizon)| - 1] == b
  {
    if bl != [] && End(bl[0]) < horizon {
      assert (bl + [b])[1..] == bl[1..] + [b];
      PrunedKeepsLast(bl[1..], b, horizon);
    }
  }

  /**
   * The pruning loop's invariant: `bl` still ends with the new buffer `b`,
   * which ends at or after `horizon`, and prunes to what `bl0` prunes to.
   */
  predicate PrunedSoFar(bl0: seq<TimestampedBuffer>, bl: seq<TimestampedBuffer>, b: TimestampedBuffer, horizon: nat)
  {
    && bl != [] && bl[|bl| - 1] == b && End(b) >= horizon
    && Pruned(bl, horizon) == Pruned(bl0, horizon) && AllWellFormed(bl)
  }

  /** Popping a stale front buffer keeps the invariant; the new buffer is never popped. */
  lemma PruneStep(bl0: seq<TimestampedBuffer>, bl: seq<TimestampedBuffer>, b: TimestampedBuffer, horizon: nat)
    requires PrunedSoFar(bl0, bl, b, horizon) && End(bl[0]) < horizon
    ensures |bl| > 1 && PrunedSoFar(bl0, bl[1..], b, horizon)
  {
  }

  class OldShimState {
    var bufferList: seq<TimestampedBuffer>
    var lastPresentationEnd: nat
    var numUnderruns: int
    var numConsumed: int
    var inUnderrun: bool

    ghost predicate Valid()
      reads this
    {
      AllWellFormed(bufferList) && lastPresentationEnd < Machine.U64
    }

    /** The initial globals: nothing queued, horizon 0, counters 0, `in_underrun` true. */
    constructor ()
      ensures Valid() && bufferList == [] && lastPresentationEnd == 0
      ensures numUnderruns == 0 && numConsumed == 0 && inUnderrun
    {
      bufferList := [];
      lastPresentationEnd := 0;
      numUnderruns, numConsumed := 0, 0;
      inUnderrun := true;
    }

    /**
     * `pa_shim_queue`: a buffer that ends before the last presentation end
     * is dropped and nothing changes; otherwise it is appended and stale
     * buffers are popped from the front. The frame count is a C `int`
     * (taken here as non-negative).
     */
    method Queue(nframes: nat, nchannels: nat, presentationTime: nat) returns (dropped: bool)
      requires Valid() && nframes < 0x8000_0000 && presentationTime < Machine.U64
      modifies this`bufferList
      ensures Valid()
      ensures dropped <==> Machine.Wrap(presentationTime + nframes, Machine.U64) < lastPresentationEnd
      ensures dropped ==> bufferList == old(bufferList)
      ensures !dropped ==>
        var b := TimestampedBuffer(nframes, nchannels % Machine.U8, presentationTime);
        && bufferList == Pruned(old(bufferList) + [b], lastPresentationEnd)
        && bufferList != [] && bufferList[|bufferList| - 1] == b
    {
      if Machine.Wrap(presentationTime + nframes, Machine.U64) < lastPresentationEnd {
        return true;
      }
      dropped := false;
      // `(uint32_t)nframes` keeps the value, which is below 2^31
      var buff := TimestampedBuffer(nframes, nchannels % Machine.U8, presentationTime);
      ghost var bl0 := bufferList + [buff];
      bufferList := bufferList + [buff];
      PrunedKeepsLast(old(bufferList), buff, lastPresentationEnd);
      while End(bufferList[0]) < lastPresentationEnd
        invariant PrunedSoFar(bl0, bufferList, buff, lastPresentationEnd)
        decreases |bufferList|
      {
        PruneStep(bl0, bufferList, buff, lastPresentationEnd);
        bufferList := bufferList[1..];
      }
    }

    /**
     * `pa_shim_processcb` over `frameCount` frames starting at sample time
     * `presentationStart`; `hasOutput` is `output != NULL`. Returns the copy
     * plan and `write_idx`; the sample copies the plan describes and the
     * zero fill of the rest of the output are not modelled.
     */
    method ProcessCallback(presentationStart: nat, frameCount: nat, hasOutput: bool)
      returns (picks: seq<Pick>, writeIdx: nat)
      requires Valid() && presentationStart < Machine.U64 && frameCount < Machine.U64
      modifies this`lastPresentationEnd, this`numUnderruns, this`numConsumed, this`inUnderrun
      ensures Valid()
      ensures !hasOutput ==>
        && picks == [] && writeIdx == 0 && lastPresentationEnd == old(lastPresentationEnd)
        && numUnderruns == old(numUnderruns) && numConsumed == old(numConsumed) && inUnderrun == old(inUnderrun)
      ensures hasOutput ==>
        var r := Scan(bufferList, 0, presentationStart, frameCount, 0);
        && lastPresentationEnd == Machine.Wrap(presentationStart + frameCount, Machine.U64)
        && picks == r.picks && writeIdx == r.written
        && numConsumed == old(numConsumed) + r.used
        && (writeIdx < frameCount ==> numUnderruns == old(numUnderruns) + 1 && inUnderrun)
        && (writeIdx >= frameCount ==> numUnderruns == old(numUnderruns) && !inUnderrun)
    {
      picks, writeIdx := [], 0;
      if !hasOutput {
        return;
      }
      lastPresentationEnd := Machine.Wrap(presentationStart + frameCount, Machine.U64);
      var used;
      picks, writeIdx, used := ScanBuffers(presentationStart, frameCount);
      numConsumed := numConsumed + used;
      if writeIdx < frameCount {
        numUnderruns := numUnderruns + 1;
        inUnderrun := true;
      } else {
        inUnderrun := false;
      }
    }

    /** The buffer scan of `pa_shim_processcb`, which `Scan` specifies. */
    method ScanBuffers(ps: nat, frameCount: nat) returns (picks: seq<Pick>, writeIdx: nat, used: nat)
      requires Valid() && ps < Machine.U64 && frameCount < Machine.U64
      requires lastPresentationEnd == Machine.Wrap(ps + frameCount, Machine.U64)
      ensures var r := Scan(bufferList, 0, ps, frameCount, 0);
        picks == r.picks && writeIdx == r.written && used == r.used
    {
      picks, writeIdx, used := [], 0, 0;
      ghost var r0 := Scan(bufferList, 0, ps, frameCount, 0);
      var i := 0;
      while i < |bufferList|
        invariant 0 <= i <= |bufferList| && writeIdx < Machine.U64
        invariant ScannedSoFar(r0, bufferList, i, ps, frameCount, writeIdx, picks, used)
        decreases |bufferList| - i
      {
        var buff := bufferList[i];
        if buff.timestamp >= lastPresentationEnd {
          assert Horizon(ps, frameCount) == lastPresentationEnd;
          break;
        }
        if Overlaps(buff, ps, frameCount, writeIdx) {
          used := used + 1;
          var pick := PickOf(buff, i, ps, frameCount, writeIdx);
          ScanPicks(bufferList, i, ps, frameCount, writeIdx, picks, used - 1, r0);
          picks := picks + [pick];
          writeIdx := After(pick);
        } else {
          ScanSkips(bufferList, i, ps, frameCount, writeIdx, picks, used, r0);
        }
        if writeIdx == frameCount {
          break;
        }
        i := i + 1;
      }
    }
  }

  // ------------------------------------------------------------ window scan

  /**
   * One copy made by the callback: `len` frames of buffer `index`, starting
   * at its frame `offset` (a `uint64_t`), to output frame `at`. `len` is the
   * C `int read_len`.
   */
  datatype Pick = Pick(index: nat, offset: nat, len: int, at: nat)

  /** The copies made and `write_idx` after them, with the number of buffers used. */
  datatype ScanResult = ScanResult(picks: seq<Pick>, written: nat, used: nat)

  /** `presentation_start + write_idx` and `last_presentation_end`, as 64-bit sums. */
  function Cursor(ps: nat, w: nat): nat { Machine.Wrap(ps + w, Machine.U64) }

  function Horizon(ps: nat, frameCount: nat): nat { Machine.Wrap(ps + frameCount, Machine.U64) }

  /** The test for using a buffer: it ends at or after the cursor and starts before the horizon. */
  predicate Overlaps(b: TimestampedBuffer, ps: nat, frameCount: nat, w: nat)
  {
    End(b) >= Cursor(ps, w) && b.timestamp < Horizon(ps, frameCount)
  }

  /** The copy made from buffer `i`: `buff_offset`, then `read_len` as a C `int`. */
  function PickOf(b: TimestampedBuffer, i: nat, ps: nat, frameCount: nat, w: nat): Pick
  {
    var offset := Machine.Wrap(Cursor(ps, w) - b.timestamp, Machine.U64);
    var readLen := Machine.ToInt32(Min(Machine.Wrap(b.nframes - offset, Machine.U64),
                                       Machine.Wrap(Horizon(ps, frameCount) - Cursor(ps, w), Machine.U64)));
    Pick(i, offset, readLen, w)
  }

  /** `write_idx += read_len`, with the `int` sign-extended to 64 bits. */
  function After(p: Pick): nat { Machine.Wrap(p.at + p.len, Machine.U64) }

  /** The scan's invariant: the picks so far followed by the rest of the scan make the whole scan. */
  ghost predicate ScannedSoFar(r0: ScanResult, bl: seq<TimestampedBuffer>, i: nat, ps: nat, frameCount: nat,
                               w: nat, picks: seq<Pick>, used: nat)
  {
    && i <= |bl|
    && var r := Scan(bl, i, ps, frameCount, w);
    && r0.picks == picks + r.picks && r0.written == r.written && r0.used == used + r.used
  }

  /** Using buffer `i`: the scan continues after it, or finishes when the output is full. */
  lemma ScanPicks(bl: seq<TimestampedBuffer>, i: nat, ps: nat, frameCount: nat, w: nat,
                  picks: seq<Pick>, used: nat, r0: ScanResult)
    requires ScannedSoFar(r0, bl, i, ps, frameCount, w, picks, used) && i < |bl|
    requires bl[i].timestamp < Horizon(ps, frameCount) && Overlaps(bl[i], ps, frameCount, w)
    ensures var p := PickOf(bl[i], i, ps, frameCount, w);
      && (After(p) == frameCount ==> r0.picks == picks + [p] && r0.written == After(p) && r0.used == used + 1)
      && (After(p) != frameCount ==> ScannedSoFar(r0, bl, i + 1, ps, frameCount, After(p), picks + [p], used + 1))
  {
    var p := PickOf(bl[i], i, ps, frameCount, w);
    if After(p) != frameCount {
      var rest := Scan(bl, i + 1, ps, frameCount, After(p));
      assert picks + ([p] + rest.picks) == (picks + [p]) + rest.picks;
    }
  }

  /** Passing over buffer `i`: the scan continues after it, or finishes when the output is full. */
  lemma ScanSkips(bl: seq<TimestampedBuffer>, i: nat, ps: nat, frameCount: nat, w: nat,
                  picks: seq<Pick>, used: nat, r0: ScanResult)
    requires ScannedSoFar(r0, bl, i, ps, frameCount, w, picks, used) && i < |bl|
    requires bl[i].timestamp < Horizon(ps, frameCount) && !Overlaps(bl[i], ps, frameCount, w)
    ensures w == frameCount ==> r0.picks == picks && r0.written == w && r0.used == used
    ensures w != frameCount ==> ScannedSoFar(r0, bl, i + 1, ps, frameCount, w, picks, used)
  {
  }

  /** The scan of `buffer_list` from position `i` with `write_idx == w`. */
  function Scan(bl: seq<TimestampedBuffer>, i: nat, ps: nat, frameCount: nat, w: nat): ScanResult
    requires i <= |bl|
    decreases |bl| - i
  {
    if i == |bl| || bl[i].timestamp >= Horizon(ps, frameCount) then ScanResult([], w, 0)
    else if Overlaps(bl[i], ps, frameCount, w) then
      var p := PickOf(bl[i], i, ps, frameCount, w);
      var rest := if After(p) == frameCount then ScanResult([], After(p), 0)
                  else Scan(bl, i + 1, ps, frameCount, After(p));
      ScanResult([p] + rest.picks, rest.written, rest.used + 1)
    else if w == frameCount then ScanResult([], w, 0)
    else Scan(bl, i + 1, ps, frameCount, w)
  }


  // ------------------------------------------------ properties of the scan

  /** No 64-bit sum in the window arithmetic wraps, and the window fits a C `int`. */
  predicate NoWrap(ps: nat, frameCount: nat)
  {
    ps + frameCount < Machine.U64 && frameCount < 0x8000_0000
  }

  /** The copies lie back to back from output frame `w` up to `written`. */
  predicate Tiles(picks: seq<Pick>, w: nat, written: nat)
  {
    if picks == [] then w == written
    else picks[0].at == w && picks[0].len >= 0 && Tiles(picks[1..], w + picks[0].len, written)
  }

  /** One copy, without wrap-around: it starts at the cursor and stays inside the window. */
  lemma PickWithinWindow(b: TimestampedBuffer, i: nat, ps: nat, frameCount: nat, w: nat)
    requires NoWrap(ps, frameCount) && w <= frameCount && WellFormed(b)
    ensures var p := PickOf(b, i, ps, frameCount, w);
      && p.at == w && 0 <= p.len <= frameCount - w && After(p) == w + p.len
  {
  }

  /**
   * Without wrap-around the callback never writes past the end of its
   * output: the copies tile the output from frame 0 to `write_idx`, and
   * `write_idx <= frameCount`.
   */
  lemma {:induction false} ScanWithinWindow(bl: seq<TimestampedBuffer>, i: nat, ps: nat, frameCount: nat, w: nat)
    requires i <= |bl| && AllWellFormed(bl) && NoWrap(ps, frameCount) && w <= frameCount
    ensures var r := Scan(bl, i, ps, frameCount, w);
      r.written <= frameCount && Tiles(r.picks, w, r.written)
    decreases |bl| - i
  {
    if i < |bl| && bl[i].timestamp < Horizon(ps, frameCount) {
      if Overlaps(bl[i], ps, frameCount, w) {
        var p := PickOf(bl[i], i, ps, frameCount, w);
        PickWithinWindow(bl[i], i, ps, frameCount, w);
        if After(p) != frameCount {
          ScanWithinWindow(bl, i + 1, ps, frameCount, After(p));
        }
        var r := Scan(bl, i, ps, frameCount, w);
        assert r.picks[1..] == Scan(bl, i, ps, frameCount, w).picks[1..];
      } else if w != frameCount {
        ScanWithinWindow(bl, i + 1, ps, frameCount, w);
      }
    }
  }

  /**
   * Every buffer copied from overlapped the window when it was reached, and
   * the scan never reaches past the first buffer that starts at or after the
   * horizon: every buffer up to a copied one starts before it.
   */
  lemma {:induction false} ScanStopsAtHorizon(bl: seq<TimestampedBuffer>, i: nat, ps: nat, frameCount: nat, w: nat)
    requires i <= |bl|
    ensures AllSound(bl, i, ps, frameCount, Scan(bl, i, ps, frameCount, w).picks)
    decreases |bl| - i
  {
    if i < |bl| && bl[i].timestamp < Horizon(ps, frameCount) {
      var r := Scan(bl, i, ps, frameCount, w);
      if Overlaps(bl[i], ps, frameCount, w) {
        var p := PickOf(bl[i], i, ps, frameCount, w);
        assert PickSound(bl, i, ps, frameCount, p);
        if After(p) != frameCount {
          ScanStopsAtHorizon(bl, i + 1, ps, frameCount, After(p));
          var rest := Scan(bl, i + 1, ps, frameCount, After(p));
          assert r.picks == [p] + rest.picks;
          forall k | 0 <= k < |rest.picks|
            ensures PickSound(bl, i, ps, frameCount, rest.picks[k])
          {
            PickSoundWiden(bl, i, ps, frameCount, rest.picks[k]);
          }
        }
      } else if w != frameCount {
        ScanStopsAtHorizon(bl, i + 1, ps, frameCount, w);
        var rest := Scan(bl, i + 1, ps, frameCount, w);
        assert r.picks == rest.picks;
        forall k | 0 <= k < |rest.picks|
          ensures PickSound(bl, i, ps, frameCount, rest.picks[k])
        {
          PickSoundWiden(bl, i, ps, frameCount, rest.picks[k]);
        }
      }
    }
  }

  /**
   * A copy from buffer `p.index`, reached from position `i`: the buffer
   * overlapped the window at that point, and it and every buffer before it
   * from `i` on start before the horizon.
   */
  predicate PickSound(bl: seq<TimestampedBuffer>, i: nat, ps: nat, frameCount: nat, p: Pick)
  {
    && i <= p.index < |bl|
    && Overlaps(bl[p.index], ps, frameCount, p.at)
    && forall j :: i <= j <= p.index ==> bl[j].timestamp < Horizon(ps, frameCount)
  }

  predicate AllSound(bl: seq<TimestampedBuffer>, i: nat, ps: nat, frameCount: nat, picks: seq<Pick>)
  {
    forall k :: 0 <= k < |picks| ==> PickSound(bl, i, ps, frameCount, picks[k])
  }

  lemma PickSoundWiden(bl: seq<TimestampedBuffer>, i: nat, ps: nat, frameCount: nat, p: Pick)
    requires i < |bl| && bl[i].timestamp < Horizon(ps, frameCount)
    requires PickSound(bl, i + 1, ps, frameCount, p)
    ensures PickSound(bl, i, ps, frameCount, p)
  {
  }

  /**
   * A buffer that started at or before the cursor is read inside its own
   * frames: `buff_offset + read_len <= nframes`.
   */
  lemma PickInsideBuffer(b: TimestampedBuffer, i: nat, ps: nat, frameCount: nat, w: nat)
    requires NoWrap(ps, frameCount) && w <= frameCount && WellFormed(b)
    requires b.timestamp + b.nframes < Machine.U64 && Overlaps(b, ps, frameCount, w)
    requires b.timestamp <= ps + w
    ensures var p := PickOf(b, i, ps, frameCount, w);
      p.offset == ps + w - b.timestamp && 0 <= p.len && p.offset + p.len <= b.nframes
  {
  }

  /**
   * A buffer that starts after the cursor (a gap in the stream) passes the
   * overlap test, but `buff_offset = (presentation_start + write_idx) -
   * timestamp` wraps around: here the copy is 10 frames from offset
   * 2^64 - 5, which is 5 frames before the buffer's data.
   */
  lemma GapOffsetWraps()
    ensures var b := TimestampedBuffer(10, 2, 5);
      && Overlaps(b, 0, 10, 0)
      && PickOf(b, 0, 0, 10, 0) == Pick(0, Machine.U64 - 5, 10, 0)
      && PickOf(b, 0, 0, 10, 0).offset >= b.nframes
  {
    var b := TimestampedBuffer(10, 2, 5);
    assert Machine.Wrap(0 - 5, Machine.U64) == Machine.U64 - 5;
    assert Machine.Wrap(10 - (Machine.U64 - 5), Machine.U64) == 15;
  }

  /**
   * The copy the scan evidently intends from an overlapping buffer: one that
   * starts after the cursor leaves the gap before it untouched and is read
   * from its first frame at output frame `timestamp - presentation_start`;
   * one that started earlier is read from `cursor - timestamp`. Either way
   * output frame `at + k` is given buffer frame `offset + k`, the frame with
   * the same presentation time, and the copy stays inside both the window
   * and the buffer.
   */
  function PickIntended(b: TimestampedBuffer, i: nat, ps: nat, frameCount: nat, w: nat): (p: Pick)
    requires NoWrap(ps, frameCount) && w <= frameCount && WellFormed(b)
    requires b.timestamp + b.nframes < Machine.U64 && Overlaps(b, ps, frameCount, w)
    ensures p.index == i && w <= p.at && 0 <= p.len && p.at + p.len <= frameCount
    ensures p.offset + p.len <= b.nframes
    ensures ps + p.at == b.timestamp + p.offset
  {
    var start := if b.timestamp <= ps + w then ps + w else b.timestamp;
    var offset := start - b.timestamp;
    var at := start - ps;
    Pick(i, offset, Min(b.nframes - offset, frameCount - at), at)
  }

  /** Where there is no gap, the intended copy is the one the code makes. */
  lemma PickIntendedAgrees(b: TimestampedBuffer, i: nat, ps: nat, frameCount: nat, w: nat)
    requires NoWrap(ps, frameCount) && w <= frameCount && WellFormed(b)
    requires b.timestamp + b.nframes < Machine.U64 && Overlaps(b, ps, frameCount, w)
    requires b.timestamp <= ps + w
    ensures PickIntended(b, i, ps, frameCount, w) == PickOf(b, i, ps, frameCount, w)
  {
    PickInsideBuffer(b, i, ps, frameCount, w);
  }

  /** For the buffer of `GapOffsetWraps` the intended copy is its 5 first frames into output frames 5 to 9. */
  lemma GapIntended()
    ensures PickIntended(TimestampedBuffer(10, 2, 5), 0, 0, 10, 0) == Pick(0, 0, 5, 5)
  {
  }
}
