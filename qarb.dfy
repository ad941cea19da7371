/**
 * qarb.cpp: the queueing additive ring buffer. Clients add their samples
 * into a shared ring at an offset from the read position; the reader drains
 * the ring, zeroing what it has read so that later writes add onto silence.
 */
module Qarb {
  import Machine
  import opened Circular

  function Min(a: nat, b: nat): nat { if a <= b then a else b }

  /** What `read(n)` outputs: the whole ring at most once, then the zeros it left behind. */
  function Drawn(d: seq<int>, s: nat, n: nat): (out: seq<int>)
    requires s < |d|
    ensures |out| == n
  {
    Window(d, s, Min(n, |d|)) + Zeros(n - Min(n, |d|))
  }

  /** The ring after `read(n)`: every slot that was read holds zero. */
  function Drained(d: seq<int>, s: nat, n: nat): (r: seq<int>)
    requires s < |d|
    ensures |r| == |d|
  {
    Overwrite(d, s, Zeros(Min(n, |d|)))
  }

  /** The slot after `t` on a ring of `m` slots. */
  function Next(t: nat, m: nat): (u: nat)
    requires t < m
    ensures u < m
  {
    if t + 1 == m then 0 else t + 1
  }

  /** The slot `k` steps after `t`, going round the ring as often as needed. */
  function Advance(t: nat, k: nat, m: nat): (u: nat)
    requires t < m
    ensures u < m
    decreases k
  {
    if k == 0 then t else Advance(Next(t, m), k - 1, m)
  }

  /**
   * The total that writing `xs` from slot `t` onward adds to slot `j` of a
   * ring of `m` slots: the sum of every `xs[i]` whose slot `(t + i) mod m`
   * is `j`, however many times the write goes round.
   */
  function Contribution(xs: seq<int>, t: nat, m: nat, j: nat): int
    requires t < m
    decreases |xs|
  {
    if xs == [] then 0
    else (if t == j then xs[0] else 0) + Contribution(xs[1..], Next(t, m), m, j)
  }

  /** The ring after adding `xs` from slot `t` onward. */
  function AddAll(d: seq<int>, t: nat, xs: seq<int>): (r: seq<int>)
    requires t < |d|
    ensures |r| == |d|
  {
    seq(|d|, j requires 0 <= j < |d| => d[j] + Contribution(xs, t, |d|, j))
  }

  /** Element-wise sum of two equally long sample blocks. */
  function Plus(xs: seq<int>, ys: seq<int>): (zs: seq<int>)
    requires |xs| == |ys|
    ensures |zs| == |xs|
  {
    seq(|xs|, i requires 0 <= i < |xs| => xs[i] + ys[i])
  }

  /** `Advance` is the source's `(t + k) % m`. */
  lemma {:induction false} AdvanceIsMod(t: nat, k: nat, m: nat)
    requires t < m
    ensures Advance(t, k, m) == (t + k) % m
    decreases k
  {
    if k == 0 {
      Machine.LemmaModUnique(t, m, 0, t);
    } else {
      AdvanceIsMod(Next(t, m), k - 1, m);
      if t + 1 == m {
        Machine.ModAddModulus(k - 1, m);
      }
    }
  }

  lemma {:induction false} AdvanceAdd(t: nat, a: nat, b: nat, m: nat)
    requires t < m
    ensures Advance(Advance(t, a, m), b, m) == Advance(t, a + b, m)
    decreases a
  {
    if a > 0 {
      AdvanceAdd(Next(t, m), a - 1, b, m);
    }
  }

  /** Writing `a + b` adds what writing `a` and then `b` after it adds. */
  lemma {:induction false} ContributionAppend(a: seq<int>, b: seq<int>, t: nat, m: nat, j: nat)
    requires t < m
    ensures Contribution(a + b, t, m, j)
         == Contribution(a, t, m, j) + Contribution(b, Advance(t, |a|, m), m, j)
    decreases |a|
  {
    if a == [] {
      assert a + b == b;
    } else {
      assert (a + b)[0] == a[0];
      assert (a + b)[1..] == a[1..] + b;
      ContributionAppend(a[1..], b, Next(t, m), m, j);
      assert Advance(t, |a|, m) == Advance(Next(t, m), |a[1..]|, m);
    }
  }

  /**
   * A write that goes round at most once adds `xs[i]` to its `i`-th slot
   * after `t` and nothing elsewhere.
   */
  lemma {:induction false} ContributionWithin(xs: seq<int>, t: nat, m: nat, j: nat)
    requires t < m && j < m && |xs| <= m
    ensures Contribution(xs, t, m, j)
         == if Offset(j, t, m) < |xs| then xs[Offset(j, t, m)] else 0
    decreases |xs|
  {
    if xs != [] {
      ContributionWithin(xs[1..], Next(t, m), m, j);
      if t != j {
        assert Offset(j, Next(t, m), m) == Offset(j, t, m) - 1;
      } else {
        assert Offset(j, Next(t, m), m) == m - 1;
      }
    }
  }

  /** A write that stays before the end of the ring touches a plain slice. */
  lemma ContributionContiguous(xs: seq<int>, t: nat, m: nat, j: nat)
    requires t < m && j < m && t + |xs| <= m
    ensures Contribution(xs, t, m, j) == if t <= j < t + |xs| then xs[j - t] else 0
  {
    ContributionWithin(xs, t, m, j);
    if t <= j < t + |xs| {
      assert Offset(j, t, m) == j - t;
    }
  }

  /** Contributions are linear in the written samples. */
  lemma {:induction false} ContributionPlus(xs: seq<int>, ys: seq<int>, t: nat, m: nat, j: nat)
    requires t < m && |xs| == |ys|
    ensures Contribution(xs, t, m, j) + Contribution(ys, t, m, j)
         == Contribution(Plus(xs, ys), t, m, j)
    decreases |xs|
  {
    if xs != [] {
      assert Plus(xs, ys)[1..] == Plus(xs[1..], ys[1..]);
      ContributionPlus(xs[1..], ys[1..], Next(t, m), m, j);
    }
  }

  /**
   * Writes are additive: two writes at the same position leave the ring
   * holding its old contents plus the element-wise sum of both inputs.
   */
  lemma WritesAdd(d: seq<int>, t: nat, xs: seq<int>, ys: seq<int>)
    requires t < |d| && |xs| == |ys|
    ensures AddAll(AddAll(d, t, xs), t, ys) == AddAll(d, t, Plus(xs, ys))
  {
    forall j | 0 <= j < |d|
      ensures AddAll(AddAll(d, t, xs), t, ys)[j] == AddAll(d, t, Plus(xs, ys))[j]
    {
      ContributionPlus(xs, ys, t, |d|, j);
    }
  }

  /** A write that fits in the ring leaves every slot outside its window unchanged. */
  lemma AddOutsideWindow(d: seq<int>, t: nat, xs: seq<int>, j: nat)
    requires t < |d| && |xs| <= |d| && j < |d| && Offset(j, t, |d|) >= |xs|
    ensures AddAll(d, t, xs)[j] == d[j]
  {
    ContributionWithin(xs, t, |d|, j);
  }

  /** Reading back the window of a write that fits gives the old window plus the input. */
  lemma WindowOfAdd(d: seq<int>, t: nat, xs: seq<int>)
    requires t < |d| && |xs| <= |d|
    ensures Window(AddAll(d, t, xs), t, |xs|) == Plus(Window(d, t, |xs|), xs)
  {
    forall i | 0 <= i < |xs|
      ensures Window(AddAll(d, t, xs), t, |xs|)[i] == Plus(Window(d, t, |xs|), xs)[i]
    {
      var j := Slot(t, i, |d|);
      ContributionWithin(xs, t, |d|, j);
    }
  }

  /** A read that does not go round leaves zeros where it read. */
  lemma DrainedWindowIsSilent(d: seq<int>, s: nat, n: nat)
    requires s < |d| && n <= |d|
    ensures Window(Drained(d, s, n), s, n) == Zeros(n)
  {
    WindowOfOverwrite(d, s, Zeros(n));
  }

  /**
   * A client's write into a freshly read window at offset 0 is what the
   * next read of that window returns.
   */
  lemma ReadAfterWriteIntoSilence(d: seq<int>, s: nat, xs: seq<int>)
    requires s < |d| && |xs| <= |d| && Window(d, s, |xs|) == Zeros(|xs|)
    ensures Drawn(AddAll(d, s, xs), s, |xs|) == xs
  {
    WindowOfAdd(d, s, xs);
    assert Plus(Zeros(|xs|), xs) == xs;
  }

  /** The two halves of a `read` that wraps past the whole ring: it then reads zeros. */
  lemma {:induction false} LongReadComposes(d0: seq<int>, s0: nat, n: nat, d1: seq<int>, out1: seq<int>, out2: seq<int>, d2: seq<int>)
    requires s0 < |d0| && n > |d0|
    requires d1 == Overwrite(d0, s0, Zeros(|d0| - s0)) && out1 == Window(d0, s0, |d0| - s0)
    requires out2 == Drawn(d1, 0, n - (|d0| - s0)) && d2 == Drained(d1, 0, n - (|d0| - s0))
    ensures out1 + out2 == Drawn(d0, s0, n)
    ensures d2 == Drained(d0, s0, n)
  {
    var m := |d0|;
    var f := m - s0;
    var n2 := n - f;
    var k := Min(n2, m);
    assert k > s0;
    forall j | 0 <= j < m ensures d2[j] == Drained(d0, s0, n)[j] {
      assert Offset(j, s0, m) < m;
      if j < s0 {
        assert Offset(j, 0, m) == j;
      } else {
        assert Offset(j, s0, m) == j - s0;
      }
    }
    var lhs := out1 + out2;
    var rhs := Drawn(d0, s0, n);
    forall i | 0 <= i < n ensures lhs[i] == rhs[i] {
      if i < f {
      } else if i < m {
        assert lhs[i] == out2[i - f] == d1[i - f];
        assert Slot(s0, i, m) == i - f;
        assert Offset(i - f, s0, m) == i;
      } else if i - f < k {
        assert lhs[i] == d1[i - f];
        assert Offset(i - f, s0, m) == i - f - s0;
      }
    }
  }

  /** The read position after both halves of a wrapped `read`. */
  lemma IdxComposes(s0: nat, n: nat, m: nat, i2: nat)
    requires s0 < m && s0 + n > m && i2 == ((s0 + (m - s0)) % m + (n - (m - s0))) % m
    ensures i2 == (s0 + n) % m
  {
    Machine.LemmaModUnique(m, m, 1, 0);
    var x := s0 + n;
    Machine.LemmaModUnique(x, m, (x - m) / m + 1, (x - m) % m);
  }

  class QueueingAdditiveRingBuffer {
    var data: array<int>
    var datalen: nat
    var idx: nat
    var lastIdx: nat

    ghost predicate Valid()
      reads this
    {
      && data.Length == datalen
      && (datalen == 0 ==> idx == 0 && lastIdx == 0)
      && (datalen > 0 ==> idx < datalen && lastIdx < datalen)
    }

    /**
     * A ring of `len` slots with both indices at 0. The slots are not
     * cleared: their initial contents `junk` are whatever the allocation held.
     */
    constructor (len: nat, junk: seq<int>)
      requires |junk| == len
      ensures Valid() && fresh(data)
      ensures datalen == len && data[..] == junk && idx == 0 && lastIdx == 0
    {
      data := new int[len](i requires 0 <= i < len => junk[i]);
      datalen := len;
      idx, lastIdx := 0, 0;
    }

    /**
     * Reads `n` samples with no availability check: outputs the ring from
     * `idx` in circular order, zeroes what it read and advances `idx` by `n`
     * modulo the length.
     */
    method Read(n: nat) returns (out: seq<int>)
      requires Valid() && datalen > 0
      modifies this`idx, data
      ensures Valid() && lastIdx == old(lastIdx)
      ensures idx == (old(idx) + n) % datalen
      ensures out == Drawn(old(data[..]), old(idx), n)
      ensures data[..] == Drained(old(data[..]), old(idx), n)
      decreases n
    {
      if idx + n > datalen {
        ghost var d0, s0 := data[..], idx;
        var firstBatch := datalen - idx;
        var out1 := Read(firstBatch);
        Machine.LemmaModUnique(datalen, datalen, 1, 0);
        assert idx == 0;
        ghost var d1 := data[..];
        var out2 := Read(n - firstBatch);
        out := out1 + out2;
        ReadComposes(d0, s0, n, d1, out1, out2, data[..]);
        IdxComposes(s0, n, datalen, idx);
      } else {
        out := Contiguous(n);
      }
    }

    /** The non-wrapping case of `read`: advance `idx`, `memcpy` out, `memset` to zero. */
    method Contiguous(n: nat) returns (out: seq<int>)
      requires Valid() && datalen > 0 && idx + n <= datalen
      modifies this`idx, data
      ensures Valid() && lastIdx == old(lastIdx)
      ensures idx == (old(idx) + n) % datalen
      ensures out == Drawn(old(data[..]), old(idx), n)
      ensures data[..] == Drained(old(data[..]), old(idx), n)
    {
      ghost var d0 := data[..];
      var tmp := idx;
      idx := (idx + n) % datalen;
      out := data[tmp..tmp + n];
      forall j | tmp <= j < tmp + n {
        data[j] := 0;
      }
      ContiguousWindow(d0, tmp, n);
      ContiguousOverwrite(d0, tmp, Zeros(n), data[..]);
    }

    /**
     * Adds `n` samples of `input` into the ring from `offset` slots after
     * `idx`, going round as often as `n` requires; `idx` is not moved.
     */
    method Write(n: nat, offset: nat, input: seq<int>)
      requires Valid() && datalen > 0 && n <= |input|
      modifies data
      ensures idx == old(idx) && lastIdx == old(lastIdx)
      ensures data[..] == AddAll(old(data[..]), WriteStart(offset), input[..n])
    {
      ghost var d0 := data[..];
      var tempIdx := Machine.Wrap(idx + offset, Machine.U32) % datalen;
      ghost var t0 := tempIdx;
      var amntWritten := 0;
      AdvanceIsMod(t0, 0, datalen);
      while amntWritten < n
        invariant 0 <= amntWritten <= n && tempIdx < datalen
        invariant tempIdx == Advance(t0, amntWritten, datalen)
        invariant data[..] == AddAll(d0, t0, input[..amntWritten])
        decreases n - amntWritten
      {
        var batchSize := Min(datalen - tempIdx, n - amntWritten);
        ghost var d1 := data[..];
        AddBatch(tempIdx, batchSize, input, amntWritten);
        BatchAdds(d0, t0, input, amntWritten, batchSize, tempIdx, d1, data[..]);
        AdvanceAdd(t0, amntWritten, batchSize, datalen);
        AdvanceIsMod(tempIdx, batchSize, datalen);
        amntWritten := amntWritten + batchSize;
        tempIdx := (tempIdx + batchSize) % datalen;
      }
      assert input[..n] == input[..amntWritten];
    }

    /** The inner `for` loop of `write`: adds one batch into a plain slice of the ring. */
    method AddBatch(t: nat, b: nat, input: seq<int>, a: nat)
      requires data.Length == datalen && t + b <= datalen && a + b <= |input|
      modifies data
      ensures forall j :: 0 <= j < datalen && !(t <= j < t + b) ==> data[j] == old(data[j])
      ensures forall j :: 0 <= j < datalen && t <= j < t + b ==> data[j] == old(data[j]) + input[j - t + a]
    {
      var i := 0;
      while i < b
        invariant 0 <= i <= b
        invariant forall j :: 0 <= j < datalen && !(t <= j < t + i) ==> data[j] == old(data[j])
        invariant forall j :: 0 <= j < datalen && t <= j < t + i ==> data[j] == old(data[j]) + input[j - t + a]
      {
        data[t + i] := data[t + i] + input[i + a];
        i := i + 1;
      }
    }

    /** The slot a write at `offset` starts from: `(idx + offset) % datalen`, the sum in 32 bits. */
    function WriteStart(offset: nat): (t: nat)
      reads this
      requires Valid() && datalen > 0
      ensures t < datalen
    {
      Machine.Wrap(idx + offset, Machine.U32) % datalen
    }

    /**
     * `getDelta`: `last_idx - idx`, wrapped into `[0, datalen)`, remembering
     * `idx`. This is not how far `idx` moved, `Offset(idx, last_idx,
     * datalen)`: after a read of `k` samples it returns `datalen - k`
     * (`DeltaAsWrittenCountsBackwards`).
     */
    method GetDelta() returns (amnt: nat)
      requires Valid()
      modifies this`lastIdx
      ensures Valid() && lastIdx == idx
      ensures datalen > 0 ==> amnt < datalen && amnt == (old(lastIdx) - idx) % datalen
      ensures datalen == 0 ==> amnt == 0
      ensures old(lastIdx) == idx ==> amnt == 0
    {
      var a := lastIdx - idx;
      if a < 0 {
        a := a + datalen;
      }
      if datalen > 0 {
        ModOnce(lastIdx - idx, datalen);
      }
      lastIdx := idx;
      amnt := a;
    }
  }

  /** Either kind of wrapped `read`: the two recursive calls compose. */
  lemma ReadComposes(d0: seq<int>, s0: nat, n: nat, d1: seq<int>, out1: seq<int>, out2: seq<int>, d2: seq<int>)
    requires s0 < |d0| && s0 + n > |d0|
    requires out1 == Drawn(d0, s0, |d0| - s0) && d1 == Drained(d0, s0, |d0| - s0)
    requires out2 == Drawn(d1, 0, n - (|d0| - s0)) && d2 == Drained(d1, 0, n - (|d0| - s0))
    ensures out1 + out2 == Drawn(d0, s0, n)
    ensures d2 == Drained(d0, s0, n)
  {
    var f := |d0| - s0;
    assert out1 == Window(d0, s0, f);
    if n <= |d0| {
      SplitReadComposes(d0, s0, n, d1, out1, Window(d1, 0, n - f), d2);
    } else {
      LongReadComposes(d0, s0, n, d1, out1, out2, d2);
    }
  }

  /** One batch of the write loop extends the written prefix by a plain slice. */
  lemma BatchAdds(d0: seq<int>, t0: nat, input: seq<int>, a: nat, b: nat, t: nat, d1: seq<int>, d2: seq<int>)
    requires t0 < |d0| && t < |d0| && t + b <= |d0| && a + b <= |input|
    requires t == Advance(t0, a, |d0|)
    requires d1 == AddAll(d0, t0, input[..a]) && |d2| == |d0|
    requires forall j :: 0 <= j < |d0| && !(t <= j < t + b) ==> d2[j] == d1[j]
    requires forall j :: 0 <= j < |d0| && t <= j < t + b ==> d2[j] == d1[j] + input[j - t + a]
    ensures d2 == AddAll(d0, t0, input[..a + b])
  {
    BatchAddsPointwise(d0, t0, input, a, b, t, d1, d2);
    AddAllPointwise(d0, t0, input[..a + b], d2);
  }

  /** A ring equal to `AddAll` slot by slot is `AddAll`. */
  lemma AddAllPointwise(d0: seq<int>, t0: nat, xs: seq<int>, d2: seq<int>)
    requires t0 < |d0| && |d2| == |d0|
    requires forall j :: 0 <= j < |d0| ==> d2[j] == d0[j] + Contribution(xs, t0, |d0|, j)
    ensures d2 == AddAll(d0, t0, xs)
  {
  }

  /** `BatchAdds` slot by slot. */
  lemma BatchAddsPointwise(d0: seq<int>, t0: nat, input: seq<int>, a: nat, b: nat, t: nat, d1: seq<int>, d2: seq<int>)
    requires t0 < |d0| && t < |d0| && t + b <= |d0| && a + b <= |input|
    requires t == Advance(t0, a, |d0|)
    requires d1 == AddAll(d0, t0, input[..a]) && |d2| == |d0|
    requires forall j :: 0 <= j < |d0| && !(t <= j < t + b) ==> d2[j] == d1[j]
    requires forall j :: 0 <= j < |d0| && t <= j < t + b ==> d2[j] == d1[j] + input[j - t + a]
    ensures forall j :: 0 <= j < |d0| ==> d2[j] == d0[j] + Contribution(input[..a + b], t0, |d0|, j)
  {
    forall j | 0 <= j < |d0| ensures d2[j] == d0[j] + Contribution(input[..a + b], t0, |d0|, j) {
      assert d1[j] == d0[j] + Contribution(input[..a], t0, |d0|, j);
      BatchAddsSlot(d0[j], t0, input, a, b, t, |d0|, j, d1[j], d2[j]);
    }
  }

  /** `BatchAdds` at one slot `j`, with the batch still a slice of `input`. */
  lemma BatchAddsSlot(d0j: int, t0: nat, input: seq<int>, a: nat, b: nat, t: nat, m: nat, j: nat, d1j: int, d2j: int)
    requires t0 < m && t < m && j < m && t + b <= m && a + b <= |input|
    requires t == Advance(t0, a, m)
    requires d1j == d0j + Contribution(input[..a], t0, m, j)
    requires d2j == d1j + (if t <= j < t + b then input[j - t + a] else 0)
    ensures d2j == d0j + Contribution(input[..a + b], t0, m, j)
  {
    var pre, batch := input[..a], input[a..a + b];
    PrefixSplit(input, a, b);
    assert t <= j < t + b ==> batch[j - t] == input[j - t + a];
    BatchAddsAt(d0j, pre, batch, t0, t, m, j, d1j, d2j);
  }

  lemma PrefixSplit(s: seq<int>, a: nat, b: nat)
    requires a + b <= |s|
    ensures s[..a + b] == s[..a] + s[a..a + b]
  {
  }

  /** `BatchAdds` at one slot `j`. */
  lemma BatchAddsAt(d0j: int, pre: seq<int>, batch: seq<int>, t0: nat, t: nat, m: nat, j: nat, d1j: int, d2j: int)
    requires t0 < m && t < m && j < m && t + |batch| <= m
    requires t == Advance(t0, |pre|, m)
    requires d1j == d0j + Contribution(pre, t0, m, j)
    requires d2j == d1j + (if t <= j < t + |batch| then batch[j - t] else 0)
    ensures d2j == d0j + Contribution(pre + batch, t0, m, j)
  {
    ContributionAppend(pre, batch, t0, m, j);
    ContributionContiguous(batch, t, m, j);
  }

  /**
   * The output thread reads the device's ring and then asks for the delta
   * (audio.cpp:158): after a read of `0 < n < datalen` samples the answer is
   * `datalen - n`, where the slots `idx` moved number `n`.
   */
  method ReadThenAskDelta(q: QueueingAdditiveRingBuffer, n: nat) returns (out: seq<int>, delta: nat)
    requires q.Valid() && q.lastIdx == q.idx && 0 < n < q.datalen
    modifies q`idx, q`lastIdx, q.data
    ensures q.Valid()
    ensures delta == q.datalen - n && Offset(q.idx, old(q.idx), q.datalen) == n
  {
    ghost var i0 := q.idx;
    out := q.Read(n);
    SlotIsMod(i0, n, q.datalen);
    delta := q.GetDelta();
    DeltaAsWrittenCountsBackwards(i0, n, q.datalen);
    OffsetCountsMoves(i0, n, q.datalen);
  }
}
