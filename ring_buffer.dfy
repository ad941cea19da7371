/**
 * Circular sample positions shared by the two ring buffers: slot arithmetic
 * on a ring of `m` slots and the sequence views it induces.
 */
module Circular {
  import Machine

  /** A value in `[-m, m)` reduced modulo `m` by at most one correction. */
  lemma ModOnce(x: int, m: int)
    requires m > 0 && -m <= x < 2 * m
    ensures x % m == if x < 0 then x + m else if x < m then x else x - m
  {
    if x < 0 {
      Machine.LemmaModUnique(x, m, -1, x + m);
    } else if x < m {
      Machine.LemmaModUnique(x, m, 0, x);
    } else {
      Machine.LemmaModUnique(x, m, 1, x - m);
    }
  }

  /** `Slot` is the source's `(s + i) % m`. */
  lemma SlotIsMod(s: nat, i: nat, m: nat)
    requires s < m && i < m
    ensures Slot(s, i, m) == (s + i) % m
  {
    ModOnce(s + i, m);
  }
  /** The slot `i` positions after `s` on a ring of `m` slots. */
  function Slot(s: nat, i: nat, m: nat): (j: nat)
    requires s < m && i < m
    ensures j < m
  {
    if s + i < m then s + i else s + i - m
  }

  /** How many positions slot `j` lies after slot `s`: the inverse of `Slot`. */
  function Offset(j: nat, s: nat, m: nat): (i: nat)
    requires j < m && s < m
    ensures i < m && Slot(s, i, m) == j
  {
    if s <= j then j - s else j + m - s
  }

  /** `Offset` is the circular difference `(j - s) mod m`. */
  lemma OffsetIsMod(j: nat, s: nat, m: nat)
    requires j < m && s < m
    ensures Offset(j, s, m) == (j - s) % m
  {
    ModOnce(j - s, m);
  }

  /** After an index moves `k` slots forward, `Offset` from where it was gives back `k`. */
  lemma OffsetCountsMoves(last: nat, k: nat, m: nat)
    requires last < m && k < m
    ensures Offset(Slot(last, k, m), last, m) == k
  {
  }

  /**
   * The delta the index queries compute, `last - current` corrected once
   * into `[0, m)`, is the complement of the slots moved: after a move of
   * `0 < k < m` slots it is `m - k`.
   */
  lemma DeltaAsWrittenCountsBackwards(last: nat, k: nat, m: nat)
    requires last < m && 0 < k < m
    ensures (last - Slot(last, k, m)) % m == m - k
  {
    ModOnce(last - Slot(last, k, m), m);
  }

  /** The `n` slots of `d` starting at `s`, in circular order. */
  function Window<T>(d: seq<T>, s: nat, n: nat): (w: seq<T>)
    requires s < |d| && n <= |d|
    ensures |w| == n
  {
    seq(n, i requires 0 <= i < n => d[Slot(s, i, |d|)])
  }

  /** `d` with the slots from `s` on, in circular order, replaced by `xs`. */
  function Overwrite<T>(d: seq<T>, s: nat, xs: seq<T>): (r: seq<T>)
    requires s < |d| && |xs| <= |d|
    ensures |r| == |d|
  {
    seq(|d|, j requires 0 <= j < |d| =>
      if Offset(j, s, |d|) < |xs| then xs[Offset(j, s, |d|)] else d[j])
  }

  function Zeros(n: nat): (z: seq<int>)
    ensures |z| == n && forall i :: 0 <= i < n ==> z[i] == 0
  {
    seq(n, _ => 0)
  }

  /** Inside the window, `Overwrite` puts `xs[i]` at the `i`-th slot after `s`. */
  lemma OverwriteAt<T>(d: seq<T>, s: nat, xs: seq<T>, i: nat)
    requires s < |d| && |xs| <= |d| && i < |xs|
    ensures Overwrite(d, s, xs)[Slot(s, i, |d|)] == xs[i]
  {
    var j := Slot(s, i, |d|);
    assert Offset(j, s, |d|) == i;
  }

  /** Reading back the window just overwritten returns what was written. */
  lemma {:induction false} WindowOfOverwrite<T>(d: seq<T>, s: nat, xs: seq<T>)
    requires s < |d| && |xs| <= |d|
    ensures Window(Overwrite(d, s, xs), s, |xs|) == xs
  {
    forall i | 0 <= i < |xs|
      ensures Window(Overwrite(d, s, xs), s, |xs|)[i] == xs[i]
    {
      OverwriteAt(d, s, xs, i);
    }
  }

  /**
   * A window that reaches the end of the ring is read as its part up to the
   * end followed by the rest from slot 0.
   */
  lemma {:induction false} WindowSplit<T>(d: seq<T>, s: nat, n: nat)
    requires s < |d| && n <= |d| && s + n > |d|
    ensures Window(d, s, |d| - s) + Window(d, 0, n - (|d| - s)) == Window(d, s, n)
  {
    var f := |d| - s;
    var lhs := Window(d, s, f) + Window(d, 0, n - f);
    forall i | 0 <= i < n ensures lhs[i] == Window(d, s, n)[i] {
      if i < f {
        assert lhs[i] == d[Slot(s, i, |d|)];
      } else {
        assert lhs[i] == Window(d, 0, n - f)[i - f] == d[i - f];
        assert Slot(s, i, |d|) == i - f;
      }
    }
  }

  /** Slots outside an overwritten window keep their values. */
  lemma OverwriteOutside<T>(d: seq<T>, s: nat, xs: seq<T>, j: nat)
    requires s < |d| && |xs| <= |d| && j < |d| && Offset(j, s, |d|) >= |xs|
    ensures Overwrite(d, s, xs)[j] == d[j]
  {
  }

  /**
   * Overwriting up to the end of the ring and then from slot 0 is the same as
   * one circular overwrite: the two halves of a split write compose.
   */
  lemma {:induction false} OverwriteSplit<T>(d: seq<T>, s: nat, xs: seq<T>)
    requires s < |d| && |xs| <= |d| && s + |xs| > |d|
    ensures Overwrite(Overwrite(d, s, xs[..|d| - s]), 0, xs[|d| - s..]) == Overwrite(d, s, xs)
  {
    var f := |d| - s;
    var d1 := Overwrite(d, s, xs[..f]);
    var lhs := Overwrite(d1, 0, xs[f..]);
    var rhs := Overwrite(d, s, xs);
    forall j | 0 <= j < |d| ensures lhs[j] == rhs[j] {
      if j < |xs| - f {
        assert Offset(j, 0, |d|) == j;
        assert Offset(j, s, |d|) == j + f;
      } else {
        assert Offset(j, 0, |d|) == j;
        if j >= s {
          assert Offset(j, s, |d|) == j - s;
        } else {
          assert Offset(j, s, |d|) == j + f;
        }
      }
    }
  }

  /** A window that does not reach the end of the ring is a plain slice. */
  lemma ContiguousWindow<T>(d: seq<T>, s: nat, n: nat)
    requires s < |d| && s + n <= |d|
    ensures d[s..s + n] == Window(d, s, n)
  {
  }

  /** A plain in-place overwrite that stops before the end of the ring. */
  lemma ContiguousOverwrite<T>(d0: seq<T>, s: nat, xs: seq<T>, d: seq<T>)
    requires s < |d0| && s + |xs| <= |d0| && |d| == |d0|
    requires forall j :: 0 <= j < |d| && s <= j < s + |xs| ==> d[j] == xs[j - s]
    requires forall j :: 0 <= j < |d| && !(s <= j < s + |xs|) ==> d[j] == d0[j]
    ensures d == Overwrite(d0, s, xs)
  {
    forall j | 0 <= j < |d| ensures d[j] == Overwrite(d0, s, xs)[j] {
      if s <= j < s + |xs| {
        assert Offset(j, s, |d|) == j - s;
      }
    }
  }

  /** A window that avoids an overwritten region reads the old values. */
  lemma {:induction false} WindowUnaffected<T>(d: seq<T>, s: nat, xs: seq<T>, t: nat, n: nat)
    requires s < |d| && |xs| <= |d| && t < |d| && n <= |d|
    requires forall i :: 0 <= i < n ==> Offset(Slot(t, i, |d|), s, |d|) >= |xs|
    ensures Window(Overwrite(d, s, xs), t, n) == Window(d, t, n)
  {
    forall i | 0 <= i < n ensures Window(Overwrite(d, s, xs), t, n)[i] == Window(d, t, n)[i] {
      OverwriteOutside(d, s, xs, Slot(t, i, |d|));
    }
  }

  /** Storing `p` in the slot just past a window of `q` slots appends it to the window. */
  lemma PushSlot<T>(d: seq<T>, r: nat, q: nat, p: T)
    requires r < |d| && q + 1 < |d|
    ensures Overwrite(d, Slot(r, q, |d|), [p]) == d[Slot(r, q, |d|) := p]
    ensures Window(d[Slot(r, q, |d|) := p], r, q + 1) == Window(d, r, q) + [p]
  {
    var m := |d|;
    var w := Slot(r, q, m);
    forall j | 0 <= j < m ensures Overwrite(d, w, [p])[j] == d[w := p][j] {
      if j == w {
        assert Offset(j, w, m) == 0;
      } else {
        assert Offset(j, w, m) != 0;
      }
    }
    var lhs := Window(d[w := p], r, q + 1);
    forall i | 0 <= i < q + 1 ensures lhs[i] == (Window(d, r, q) + [p])[i] {
      if i < q {
        assert Offset(Slot(r, i, m), r, m) == i;
        assert Slot(r, i, m) != w;
      }
    }
  }

  /** Advancing the start of a window past its first slot drops that slot. */
  lemma PopSlot<T>(d: seq<T>, r: nat, q: nat)
    requires r < |d| && 1 < |d| && 1 <= q <= |d|
    ensures Window(d, Slot(r, 1, |d|), q - 1) == Window(d, r, q)[1..]
  {
    var m := |d|;
    forall i | 0 <= i < q - 1
      ensures Window(d, Slot(r, 1, m), q - 1)[i] == Window(d, r, q)[1..][i]
    {
      assert Slot(Slot(r, 1, m), i, m) == Slot(r, i + 1, m);
    }
  }

  /** Two single-slot overwrites in succession make one two-slot overwrite. */
  lemma OverwriteTwice<T>(d: seq<T>, w: nat, a: T, b: T)
    requires w < |d| && 1 < |d|
    ensures Overwrite(Overwrite(d, w, [a]), Slot(w, 1, |d|), [b]) == Overwrite(d, w, [a, b])
  {
    var m := |d|;
    var w1 := Slot(w, 1, m);
    forall j | 0 <= j < m
      ensures Overwrite(Overwrite(d, w, [a]), w1, [b])[j] == Overwrite(d, w, [a, b])[j]
    {
      if j == w1 {
        assert Offset(j, w, m) == 1;
      } else if j != w {
        assert Offset(j, w, m) != 1;
      }
    }
  }

  /** The two halves of a wrapped `read` together read and zero the whole window. */
  lemma SplitReadComposes(d0: seq<int>, r0: nat, n: nat, d1: seq<int>, out1: seq<int>, out2: seq<int>, d2: seq<int>)
    requires r0 < |d0| && n <= |d0| && r0 + n > |d0|
    requires d1 == Overwrite(d0, r0, Zeros(|d0| - r0)) && out1 == Window(d0, r0, |d0| - r0)
    requires out2 == Window(d1, 0, n - (|d0| - r0)) && d2 == Overwrite(d1, 0, Zeros(n - (|d0| - r0)))
    ensures out1 + out2 == Window(d0, r0, n)
    ensures d2 == Overwrite(d0, r0, Zeros(n))
  {
    var f := |d0| - r0;
    assert Zeros(n)[..f] == Zeros(f);
    assert Zeros(n)[f..] == Zeros(n - f);
    OverwriteSplit(d0, r0, Zeros(n));
    WindowSplit(d0, r0, n);
    forall i | 0 <= i < n - f
      ensures Offset(Slot(0, i, |d0|), r0, |d0|) >= f
    {
    }
    WindowUnaffected(d0, r0, Zeros(f), 0, n - f);
  }
}

/** ringbuffer.cpp: the classic circular FIFO of float samples. */
module RingBuffers {
  import opened Circular

  class RingBuffer {
    var data: array<int>
    var len: nat
    var readIdx: nat
    var writeIdx: nat
    var lastWriteIdx: nat
    var lastReadIdx: nat

    ghost predicate Valid()
      reads this
    {
      && data.Length == len
      && (len == 0 ==> readIdx == writeIdx == lastReadIdx == lastWriteIdx == 0)
      && (len > 0 ==> readIdx < len && writeIdx < len && lastReadIdx < len && lastWriteIdx < len)
    }

    /** A new buffer of `len` zeroed slots with every index at 0. */
    constructor (len: nat)
      ensures Valid() && fresh(data)
      ensures this.len == len && data[..] == Zeros(len)
      ensures readIdx == 0 && writeIdx == 0 && lastReadIdx == 0 && lastWriteIdx == 0
    {
      data := new int[len](_ => 0);
      this.len := len;
      readIdx, writeIdx := 0, 0;
      lastWriteIdx, lastReadIdx := 0, 0;
    }

    /** Samples that can be read: the circular distance from `readIdx` to `writeIdx`. */
    function Readable(): (r: nat)
      reads this
      requires Valid()
      ensures len == 0 ==> r == 0
      ensures len > 0 ==> r < len && r == Offset(writeIdx, readIdx, len)
    {
      if len > 0 then Offset(writeIdx, readIdx, len) else 0
    }

    /** `Readable` is the source's `(writeIdx - readIdx) mod len`. */
    lemma ReadableIsMod()
      requires Valid() && len > 0
      ensures Readable() == (writeIdx - readIdx) % len
    {
      ModOnce(writeIdx - readIdx, len);
    }

    /** Free slots: equal indices mean the whole buffer is writable. */
    function Writable(): (r: nat)
      reads this
      requires Valid()
      ensures r + Readable() == len
      ensures readIdx == writeIdx ==> r == len
      ensures len > 0 ==> r >= 1
    {
      if readIdx <= writeIdx then readIdx + len - writeIdx else readIdx - writeIdx
    }

    /** `readable(num_samples)`: strictly more than `n` samples are readable. */
    predicate CanRead(n: nat): (r: bool)
      reads this
      requires Valid()
      ensures r <==> n + Writable() < len
    {
      Readable() > n
    }

    /** `writable(num_samples)`: strictly more than `n` slots are free. */
    predicate CanWrite(n: nat): (r: bool)
      reads this
      requires Valid()
      ensures r <==> n + Readable() < len
    {
      Writable() > n
    }

    /** The readable samples, oldest first: the FIFO's abstract contents. */
    ghost function Contents(): (c: seq<int>)
      reads this, data
      requires Valid()
      ensures |c| == Readable()
    {
      if len == 0 then [] else Window(data[..], readIdx, Readable())
    }

    /**
     * Reads `n` samples. Fails, changing nothing, unless strictly more than
     * `n` are readable; otherwise outputs the `n` slots from `readIdx` in
     * circular order, zeroes exactly those slots and advances `readIdx`.
     */
    method Read(n: nat) returns (ok: bool, out: seq<int>)
      requires Valid()
      modifies this`readIdx, data
      ensures Valid()
      ensures ok == (old(Readable()) > n)
      ensures !ok ==> readIdx == old(readIdx) && data[..] == old(data[..]) && out == []
      ensures ok ==> n < len && readIdx == Slot(old(readIdx), n, len)
      ensures ok ==> out == Window(old(data[..]), old(readIdx), n)
      ensures ok ==> data[..] == Overwrite(old(data[..]), old(readIdx), Zeros(n))
      ensures ok ==> out == old(Contents())[..n] && Contents() == old(Contents())[n..]
      decreases n, 1
    {
      if !CanRead(n) {
        return false, [];
      }
      if readIdx + n > len {
        out := ReadWrapped(n);
      } else {
        out := CopyOutAndZero(n);
      }
      ok := true;
      ReadKeepsFifo(old(data[..]), old(readIdx), writeIdx, n, data[..], readIdx);
    }

    /** The wrap-around case of `read`: a read up to the end of the ring, then one from slot 0. */
    method ReadWrapped(n: nat) returns (out: seq<int>)
      requires Valid() && readIdx + n > len && n < Readable()
      modifies this`readIdx, data
      ensures Valid() && readIdx == Slot(old(readIdx), n, len)
      ensures out == Window(old(data[..]), old(readIdx), n)
      ensures data[..] == Overwrite(old(data[..]), old(readIdx), Zeros(n))
      decreases n, 0
    {
      ghost var d0, r0 := data[..], readIdx;
      var firstBatch := len - readIdx;
      var ok1, out1 := Read(firstBatch);
      ghost var d1 := data[..];
      var ok2, out2 := Read(n - firstBatch);
      out := out1 + out2;
      SplitReadComposes(d0, r0, n, d1, out1, out2, data[..]);
    }

    /** The non-wrapping case of `read`: `memcpy` out, `memset` to zero, advance. */
    method CopyOutAndZero(n: nat) returns (out: seq<int>)
      requires Valid() && readIdx + n <= len && n < len
      modifies this`readIdx, data
      ensures Valid() && readIdx == Slot(old(readIdx), n, len)
      ensures out == Window(old(data[..]), old(readIdx), n)
      ensures data[..] == Overwrite(old(data[..]), old(readIdx), Zeros(n))
    {
      ghost var d0 := data[..];
      out := data[readIdx..readIdx + n];
      forall j | readIdx <= j < readIdx + n {
        data[j] := 0;
      }
      ContiguousWindow(d0, readIdx, n);
      ContiguousOverwrite(d0, readIdx, Zeros(n), data[..]);
      readIdx := (readIdx + n) % len;
      SlotIsMod(old(readIdx), n, len);
    }

    /**
     * Writes `n` samples of `input`. Fails, changing nothing, unless strictly
     * more than `n` slots are free; otherwise copies them into the `n` slots
     * from `writeIdx` in circular order and advances `writeIdx`.
     */
    method Write(n: nat, input: seq<int>) returns (ok: bool)
      requires Valid() && n <= |input|
      modifies this`writeIdx, data
      ensures Valid()
      ensures ok == (old(Writable()) > n)
      ensures !ok ==> writeIdx == old(writeIdx) && data[..] == old(data[..])
      ensures ok ==> n < len && writeIdx == Slot(old(writeIdx), n, len)
      ensures ok ==> data[..] == Overwrite(old(data[..]), old(writeIdx), input[..n])
      ensures ok ==> Contents() == old(Contents()) + input[..n]
      decreases n, 1
    {
      if !CanWrite(n) {
        return false;
      }
      if writeIdx + n > len {
        WriteWrapped(n, input);
      } else {
        CopyIn(n, input);
      }
      ok := true;
      WriteKeepsFifo(old(data[..]), readIdx, old(writeIdx), input[..n], data[..], writeIdx);
    }

    /** The wrap-around case of `write`: a write up to the end of the ring, then one from slot 0. */
    method WriteWrapped(n: nat, input: seq<int>)
      requires Valid() && n <= |input| && writeIdx + n > len && n < Writable()
      modifies this`writeIdx, data
      ensures Valid() && writeIdx == Slot(old(writeIdx), n, len)
      ensures data[..] == Overwrite(old(data[..]), old(writeIdx), input[..n])
      decreases n, 0
    {
      ghost var d0, w0, r0 := data[..], writeIdx, readIdx;
      var firstBatch := len - writeIdx;
      assert firstBatch < Writable();
      assert r0 != 0 && n - firstBatch < r0;
      var ok1 := Write(firstBatch, input);
      assert ok1 && writeIdx == 0 && readIdx == r0;
      assert Writable() == r0;
      ghost var d1 := data[..];
      assert d1 == Overwrite(d0, w0, input[..len - w0]);
      var ok2 := Write(n - firstBatch, input[firstBatch..]);
      assert ok2 && writeIdx == n - firstBatch;
      assert data[..] == Overwrite(d1, 0, input[firstBatch..][..n - firstBatch]);
      SlotIsMod(w0, n, len);
      SplitWriteComposes(d0, w0, input, n, d1, data[..]);
    }

    /** The non-wrapping case of `write`: `memcpy` in and advance. */
    method CopyIn(n: nat, input: seq<int>)
      requires Valid() && writeIdx + n <= len && n < len && n <= |input|
      modifies this`writeIdx, data
      ensures Valid() && writeIdx == Slot(old(writeIdx), n, len)
      ensures data[..] == Overwrite(old(data[..]), old(writeIdx), input[..n])
    {
      ghost var d0 := data[..];
      forall j | writeIdx <= j < writeIdx + n {
        data[j] := input[j - writeIdx];
      }
      ContiguousOverwrite(d0, writeIdx, input[..n], data[..]);
      writeIdx := (writeIdx + n) % len;
      SlotIsMod(old(writeIdx), n, len);
    }

    /**
     * `getAmountWritten`: `last_writeIdx - writeIdx`, wrapped into
     * `[0, len)`, and the current index remembered for the next query. This
     * is not how far `writeIdx` moved, which is `Offset(writeIdx,
     * last_writeIdx, len)`: after a move of `k` slots it returns `len - k`
     * (`DeltaAsWrittenCountsBackwards`).
     */
    method GetAmountWritten() returns (amnt: int)
      requires Valid()
      modifies this`lastWriteIdx
      ensures Valid() && lastWriteIdx == writeIdx
      ensures len > 0 ==> 0 <= amnt < len && amnt == (old(lastWriteIdx) - writeIdx) % len
      ensures len == 0 ==> amnt == 0
      ensures old(lastWriteIdx) == writeIdx ==> amnt == 0
    {
      amnt := lastWriteIdx - writeIdx;
      if amnt < 0 {
        amnt := amnt + len;
      }
      if len > 0 {
        ModOnce(lastWriteIdx - writeIdx, len);
      }
      lastWriteIdx := writeIdx;
    }

    /** `getAmountRead`: the same formula for `readIdx`, with the same reversal. */
    method GetAmountRead() returns (amnt: int)
      requires Valid()
      modifies this`lastReadIdx
      ensures Valid() && lastReadIdx == readIdx
      ensures len > 0 ==> 0 <= amnt < len && amnt == (old(lastReadIdx) - readIdx) % len
      ensures len == 0 ==> amnt == 0
      ensures old(lastReadIdx) == readIdx ==> amnt == 0
    {
      amnt := lastReadIdx - readIdx;
      if amnt < 0 {
        amnt := amnt + len;
      }
      if len > 0 {
        ModOnce(lastReadIdx - readIdx, len);
      }
      lastReadIdx := readIdx;
    }
  }

  /** The two halves of a wrapped `write` together fill the whole window. */
  lemma SplitWriteComposes(d0: seq<int>, w0: nat, input: seq<int>, n: nat, d1: seq<int>, d2: seq<int>)
    requires w0 < |d0| && n < |d0| && w0 + n > |d0| && n <= |input|
    requires d1 == Overwrite(d0, w0, input[..|d0| - w0])
    requires d2 == Overwrite(d1, 0, input[|d0| - w0..][..n - (|d0| - w0)])
    ensures d2 == Overwrite(d0, w0, input[..n])
  {
    var xs := input[..n];
    assert xs[..|d0| - w0] == input[..|d0| - w0];
    assert xs[|d0| - w0..] == input[|d0| - w0..][..n - (|d0| - w0)];
    OverwriteSplit(d0, w0, xs);
  }

  /**
   * The FIFO view of a write: the readable samples grow by exactly the
   * written ones, appended at the back.
   */
  lemma {:induction false} ContentsAfterWrite(d: seq<int>, r: nat, readable: nat, xs: seq<int>)
    requires r < |d| && readable + |xs| < |d|
    ensures Window(Overwrite(d, Slot(r, readable, |d|), xs), r, readable + |xs|)
         == Window(d, r, readable) + xs
  {
    var m := |d|;
    var w := Slot(r, readable, m);
    var lhs := Window(Overwrite(d, w, xs), r, readable + |xs|);
    var rhs := Window(d, r, readable) + xs;
    forall i | 0 <= i < readable + |xs| ensures lhs[i] == rhs[i] {
      var j := Slot(r, i, m);
      if i < readable {
        assert Offset(j, w, m) == i + m - readable;
        OverwriteOutside(d, w, xs, j);
      } else {
        assert Slot(w, i - readable, m) == j;
        OverwriteAt(d, w, xs, i - readable);
      }
    }
  }

  /** `Write` in terms of the FIFO contents, from the slot-level facts. */
  lemma WriteKeepsFifo(d0: seq<int>, r: nat, w0: nat, xs: seq<int>, d: seq<int>, w: nat)
    requires r < |d0| && w0 < |d0| && |xs| < |d0| - Offset(w0, r, |d0|)
    requires d == Overwrite(d0, w0, xs) && w == Slot(w0, |xs|, |d0|)
    ensures |xs| + Offset(w0, r, |d0|) == Offset(w, r, |d0|)
    ensures Window(d, r, Offset(w, r, |d0|)) == Window(d0, r, Offset(w0, r, |d0|)) + xs
  {
    ContentsAfterWrite(d0, r, Offset(w0, r, |d0|), xs);
  }

  /** `Read` in terms of the FIFO contents, from the slot-level facts. */
  lemma ReadKeepsFifo(d0: seq<int>, r0: nat, w: nat, n: nat, d: seq<int>, r: nat)
    requires r0 < |d0| && w < |d0| && n < Offset(w, r0, |d0|)
    requires d == Overwrite(d0, r0, Zeros(n)) && r == Slot(r0, n, |d0|)
    ensures Offset(w, r, |d0|) == Offset(w, r0, |d0|) - n
    ensures Window(d0, r0, n) == Window(d0, r0, Offset(w, r0, |d0|))[..n]
    ensures Window(d, r, Offset(w, r, |d0|)) == Window(d0, r0, Offset(w, r0, |d0|))[n..]
  {
    ContentsAfterRead(d0, r0, Offset(w, r0, |d0|), n);
  }

  /**
   * The FIFO view of a read: it returns the oldest `n` samples, and the
   * rest stay readable from the new read position.
   */
  lemma {:induction false} ContentsAfterRead(d: seq<int>, r: nat, readable: nat, n: nat)
    requires r < |d| && n < readable < |d|
    ensures Window(d, r, n) == Window(d, r, readable)[..n]
    ensures Window(Overwrite(d, r, Zeros(n)), Slot(r, n, |d|), readable - n)
         == Window(d, r, readable)[n..]
  {
    var m := |d|;
    var r2 := Slot(r, n, m);
    var lhs := Window(Overwrite(d, r, Zeros(n)), r2, readable - n);
    var rhs := Window(d, r, readable)[n..];
    forall i | 0 <= i < readable - n ensures lhs[i] == rhs[i] {
      var j := Slot(r2, i, m);
      assert j == Slot(r, n + i, m);
      assert Offset(j, r, m) == n + i;
      OverwriteOutside(d, r, Zeros(n), j);
    }
  }

  /**
   * The availability test is strict: right after writing `n` samples into an
   * empty buffer, exactly `n` are readable, so `read(n)` still refuses.
   */
  method WriteThenReadSameAmount(b: RingBuffer, n: nat, xs: seq<int>) returns (wrote: bool, readOk: bool)
    requires b.Valid() && b.readIdx == b.writeIdx && n == |xs|
    modifies b, b.data
    ensures b.Valid()
    ensures wrote == (n < b.len)
    ensures wrote ==> b.Readable() == n && !readOk
  {
    wrote := b.Write(n, xs);
    var out: seq<int>;
    readOk, out := b.Read(n);
  }

  /**
   * Asking for the amount written right after a write of `n` samples gets
   * `len - n`, where the slots `writeIdx` moved, `Offset`, number `n`.
   */
  method WriteThenAskAmount(b: RingBuffer, n: nat, xs: seq<int>) returns (wrote: bool, amnt: int)
    requires b.Valid() && b.lastWriteIdx == b.writeIdx && 0 < n == |xs|
    modifies b`writeIdx, b`lastWriteIdx, b.data
    ensures b.Valid() && (wrote ==> n < b.len)
    ensures wrote ==> amnt == b.len - n && Offset(b.writeIdx, old(b.writeIdx), b.len) == n
    ensures !wrote ==> amnt == 0
  {
    ghost var w0 := b.writeIdx;
    wrote := b.Write(n, xs);
    amnt := b.GetAmountWritten();
    if wrote {
      DeltaAsWrittenCountsBackwards(w0, n, b.len);
      OffsetCountsMoves(w0, n, b.len);
    }
  }

  /** The same for a read of `n` samples and the amount read. */
  method ReadThenAskAmount(b: RingBuffer, n: nat) returns (readOk: bool, amnt: int)
    requires b.Valid() && b.lastReadIdx == b.readIdx && 0 < n
    modifies b`readIdx, b`lastReadIdx, b.data
    ensures b.Valid() && (readOk ==> n < b.len)
    ensures readOk ==> amnt == b.len - n && Offset(b.readIdx, old(b.readIdx), b.len) == n
    ensures !readOk ==> amnt == 0
  {
    ghost var r0 := b.readIdx;
    var out: seq<int>;
    readOk, out := b.Read(n);
    amnt := b.GetAmountRead();
    if readOk {
      DeltaAsWrittenCountsBackwards(r0, n, b.len);
      OffsetCountsMoves(r0, n, b.len);
    }
  }
}
