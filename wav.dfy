/**
 * wavfile.cpp: a WAVE file of 32-bit IEEE float samples. The file is a
 * byte sequence with a write cursor; `write` overwrites or extends the
 * file at the cursor and `lseek` moves it. Every write is taken to write
 * all its bytes.
 */
module Wav {
  import opened Machine

  // -------------------------------------------------------------- bytes

  /** The file after writing `bs` at `pos`: the bytes there are replaced and the file grows if need be. */
  function WriteAt(f: seq<byte>, pos: nat, bs: seq<byte>): (r: seq<byte>)
    requires pos <= |f|
    ensures |r| == if pos + |bs| <= |f| then |f| else pos + |bs|
    ensures r[..pos] == f[..pos] && r[pos..pos + |bs|] == bs
    ensures pos + |bs| <= |f| ==> r[pos + |bs|..] == f[pos + |bs|..]
    ensures pos == |f| ==> r == f + bs
  {
    f[..pos] + bs + (if pos + |bs| < |f| then f[pos + |bs|..] else [])
  }

  /** What `writeInt(val, len)` emits: the low `len` bytes, least significant first, for a length of 1, 2 or 4; nothing otherwise. */
  function IntBytes(val: nat, len: nat): (bs: seq<byte>)
    ensures |bs| == if len == 1 || len == 2 || len == 4 then len else 0
  {
    if len == 1 || len == 2 || len == 4 then LittleEndian(val, len) else []
  }

  /** Reading back what `writeInt` emits gives the value truncated to the written width. */
  lemma IntBytesRoundTrip(val: nat, len: nat)
    requires len == 1 || len == 2 || len == 4
    ensures FromLittleEndian(IntBytes(val, len)) == val % Pow256(len)
  {
    LittleEndianRoundTrip(val, len);
  }

  /** The little-endian number stored at `off .. off+len`. */
  function Field(h: seq<byte>, off: nat, len: nat): nat
    requires off + len <= |h|
  {
    FromLittleEndian(h[off..off + len])
  }

  const RiffTag: seq<byte> := [0x52, 0x49, 0x46, 0x46]   // "RIFF"
  const WaveTag: seq<byte> := [0x57, 0x41, 0x56, 0x45]   // "WAVE"
  const FmtTag: seq<byte> := [0x66, 0x6D, 0x74, 0x20]    // "fmt "
  const DataTag: seq<byte> := [0x64, 0x61, 0x74, 0x61]   // "data"

  /** The format tag of IEEE floating-point samples, and their width in bits. */
  const IeeeFloat: nat := 3
  const BitsPerSample: nat := 32

  // ------------------------------------------------------------- header

  /** The RIFF chunk's opening: its tag, its size (0 until finalized) and the WAVE form type. */
  function RiffChunkHeader(): (r: seq<byte>)
    ensures |r| == 12
  {
    RiffTag + IntBytes(0, 4) + WaveTag
  }

  /** The 16-byte `fmt ` chunk, behind its tag and size. */
  function FmtChunk(channels: nat, rate: nat, byteRate: nat, blockAlign: nat): (r: seq<byte>)
    ensures |r| == 24
  {
    FmtTag + IntBytes(16, 4) + IntBytes(IeeeFloat, 2) + IntBytes(channels, 2) + IntBytes(rate, 4)
    + IntBytes(byteRate, 4) + IntBytes(blockAlign, 2) + IntBytes(BitsPerSample, 2)
  }

  /** The `data` chunk's tag and size (0 until finalized). */
  function DataChunkHeader(): (r: seq<byte>)
    ensures |r| == 8
  {
    DataTag + IntBytes(0, 4)
  }

  /** The 44-byte header with the given byte rate and block align. */
  function Header(channels: nat, rate: nat, byteRate: nat, blockAlign: nat): (h: seq<byte>)
    ensures |h| == 44
  {
    RiffChunkHeader() + FmtChunk(channels, rate, byteRate, blockAlign) + DataChunkHeader()
  }

  /** A field of a part that sits at `base` is the field of the whole at `base + off`. */
  lemma FieldShift(h: seq<byte>, base: nat, part: seq<byte>, off: nat, len: nat)
    requires base + |part| <= |h| && h[base..base + |part|] == part && off + len <= |part|
    ensures Field(h, base + off, len) == Field(part, off, len)
  {
    forall j | off <= j < off + len
      ensures h[base + j] == part[j]
    {
      assert h[base + j] == h[base..base + |part|][j];
    }
    assert h[base + off..base + off + len] == part[off..off + len];
  }

  lemma Assoc(a: seq<byte>, b: seq<byte>, c: seq<byte>)
    ensures a + b + c == a + (b + c)
  {
  }

  /** The last piece of a concatenation, read as a field. */
  lemma FieldOfLast(a: seq<byte>, b: seq<byte>)
    ensures Field(a + b, |a|, |b|) == FromLittleEndian(b)
  {
    assert (a + b)[|a|..|a| + |b|] == b;
  }

  lemma FmtChunkFields(channels: nat, rate: nat, byteRate: nat, blockAlign: nat)
    ensures var m := FmtChunk(channels, rate, byteRate, blockAlign);
      && m[0..4] == FmtTag
      && Field(m, 4, 4) == 16 && Field(m, 8, 2) == IeeeFloat
      && Field(m, 10, 2) == channels % U16 && Field(m, 12, 4) == rate % U32
      && Field(m, 16, 4) == byteRate % U32 && Field(m, 20, 2) == blockAlign % U16
      && Field(m, 22, 2) == BitsPerSample
  {
    FmtChunkLowFields(channels, rate, byteRate, blockAlign);
    FmtChunkHighFields(channels, rate, byteRate, blockAlign);
  }

  lemma FmtChunkLowFields(channels: nat, rate: nat, byteRate: nat, blockAlign: nat)
    ensures var m := FmtChunk(channels, rate, byteRate, blockAlign);
      && m[0..4] == FmtTag
      && Field(m, 4, 4) == 16 && Field(m, 8, 2) == IeeeFloat
      && Field(m, 10, 2) == channels % U16
  {
    var m := FmtChunk(channels, rate, byteRate, blockAlign);
    var p1 := FmtTag + IntBytes(16, 4);
    var p2 := p1 + IntBytes(IeeeFloat, 2);
    FmtChunkPrefix(channels, rate, byteRate, blockAlign);
    PrefixField(m, p2, IntBytes(channels, 2));
    PrefixField(m, p1, IntBytes(IeeeFloat, 2));
    PrefixField(m, FmtTag, IntBytes(16, 4));
    assert m[0..4] == m[..4];
    Pow256Values();
    IntBytesRoundTrip(16, 4);
    IntBytesRoundTrip(IeeeFloat, 2);
    IntBytesRoundTrip(channels, 2);
  }

  /** The first 12 bytes of the `fmt ` chunk: tag, size, format and channel count. */
  lemma FmtChunkPrefix(channels: nat, rate: nat, byteRate: nat, blockAlign: nat)
    ensures FmtChunk(channels, rate, byteRate, blockAlign)[..12]
         == FmtTag + IntBytes(16, 4) + IntBytes(IeeeFloat, 2) + IntBytes(channels, 2)
  {
    var p3 := FmtTag + IntBytes(16, 4) + IntBytes(IeeeFloat, 2) + IntBytes(channels, 2);
    var p4 := p3 + IntBytes(rate, 4);
    var p5 := p4 + IntBytes(byteRate, 4);
    var p6 := p5 + IntBytes(blockAlign, 2);
    assert FmtChunk(channels, rate, byteRate, blockAlign) == p6 + IntBytes(BitsPerSample, 2);
    PrefixOfConcat(p6, IntBytes(BitsPerSample, 2), 12);
    PrefixOfConcat(p5, IntBytes(blockAlign, 2), 12);
    PrefixOfConcat(p4, IntBytes(byteRate, 4), 12);
    PrefixOfConcat(p3, IntBytes(rate, 4), 12);
  }

  lemma PrefixOfConcat(a: seq<byte>, b: seq<byte>, k: nat)
    requires k <= |a|
    ensures (a + b)[..k] == a[..k]
  {
  }

  /** The last piece of a prefix, read as a field, and the prefix before it. */
  lemma PrefixField(m: seq<byte>, a: seq<byte>, b: seq<byte>)
    requires |a| + |b| <= |m| && m[..|a| + |b|] == a + b
    ensures Field(m, |a|, |b|) == FromLittleEndian(b) && m[..|a|] == a
  {
    FieldOfLast(a, b);
    assert m[0..|a| + |b|] == a + b;
    FieldShift(m, 0, a + b, |a|, |b|);
    assert m[..|a|] == (a + b)[..|a|];
  }

  lemma FmtChunkHighFields(channels: nat, rate: nat, byteRate: nat, blockAlign: nat)
    ensures var m := FmtChunk(channels, rate, byteRate, blockAlign);
      && Field(m, 12, 4) == rate % U32
      && Field(m, 16, 4) == byteRate % U32 && Field(m, 20, 2) == blockAlign % U16
      && Field(m, 22, 2) == BitsPerSample
  {
    Pow256Values();
    var p3 := FmtTag + IntBytes(16, 4) + IntBytes(IeeeFloat, 2) + IntBytes(channels, 2);
    var p4 := p3 + IntBytes(rate, 4);
    var p5 := p4 + IntBytes(byteRate, 4);
    var p6 := p5 + IntBytes(blockAlign, 2);
    var m := p6 + IntBytes(BitsPerSample, 2);
    IntBytesRoundTrip(rate, 4);
    IntBytesRoundTrip(byteRate, 4);
    IntBytesRoundTrip(blockAlign, 2);
    IntBytesRoundTrip(BitsPerSample, 2);
    FieldOfLast(p6, IntBytes(BitsPerSample, 2));
    FieldOfLast(p5, IntBytes(blockAlign, 2));
    FieldShift(m, 0, p6, 20, 2);
    FieldOfLast(p4, IntBytes(byteRate, 4));
    FieldShift(m, 0, p5, 16, 4);
    FieldOfLast(p3, IntBytes(rate, 4));
    FieldShift(m, 0, p4, 12, 4);
  }

  /**
   * The header `initHeader` writes: byte rate `(samplerate*4*channels)/8`
   * in 32-bit arithmetic and block align `(channels*4)/8`, where 4 is
   * already the sample width in bytes.
   */
  function HeaderAsWritten(channels: nat, rate: nat): seq<byte>
  {
    Header(channels, rate, Wrap(rate * 4 * channels, U32) / 8, (channels * 4) / 8)
  }

  /** The header with block align `channels * 32 / 8` and byte rate `samplerate * block align`. */
  function HeaderIntended(channels: nat, rate: nat): seq<byte>
  {
    Header(channels, rate, Wrap(rate * channels * 4, U32), channels * 4)
  }

  /** The tags sit at their offsets, and the header is 44 bytes long. */
  lemma HeaderTags(channels: nat, rate: nat, byteRate: nat, blockAlign: nat)
    ensures var h := Header(channels, rate, byteRate, blockAlign);
      && |h| == 44
      && h[0..4] == RiffTag && h[8..12] == WaveTag && h[12..16] == FmtTag && h[36..40] == DataTag
  {
    var r := RiffChunkHeader();
    var m := FmtChunk(channels, rate, byteRate, blockAlign);
    var d := DataChunkHeader();
    var h := r + m + d;
    FmtChunkLowFields(channels, rate, byteRate, blockAlign);
    assert h[..12] == r;
    assert h[0..4] == r[0..4] && h[8..12] == r[8..12];
    assert h[12..36] == m;
    assert h[12..16] == m[0..4];
    assert h[36..44] == d;
    assert h[36..40] == d[0..4];
  }

  /** Reading the header back: every number is where the WAVE format puts it, truncated to its width. */
  lemma HeaderFields(channels: nat, rate: nat, byteRate: nat, blockAlign: nat)
    ensures var h := Header(channels, rate, byteRate, blockAlign);
      && Field(h, 4, 4) == 0 && Field(h, 16, 4) == 16 && Field(h, 20, 2) == IeeeFloat
      && Field(h, 22, 2) == channels % U16 && Field(h, 24, 4) == rate % U32
      && Field(h, 28, 4) == byteRate % U32 && Field(h, 32, 2) == blockAlign % U16
      && Field(h, 34, 2) == BitsPerSample && Field(h, 40, 4) == 0
  {
    HeaderFormatFields(channels, rate, byteRate, blockAlign);
    HeaderSizeFields(channels, rate, byteRate, blockAlign);
  }

  lemma HeaderFormatFields(channels: nat, rate: nat, byteRate: nat, blockAlign: nat)
    ensures var h := Header(channels, rate, byteRate, blockAlign);
      && Field(h, 16, 4) == 16 && Field(h, 20, 2) == IeeeFloat
      && Field(h, 22, 2) == channels % U16 && Field(h, 24, 4) == rate % U32
      && Field(h, 28, 4) == byteRate % U32 && Field(h, 32, 2) == blockAlign % U16
      && Field(h, 34, 2) == BitsPerSample
  {
    var m := FmtChunk(channels, rate, byteRate, blockAlign);
    var h := RiffChunkHeader() + m + DataChunkHeader();
    FmtChunkFields(channels, rate, byteRate, blockAlign);
    assert h[12..36] == m;
    FieldShift(h, 12, m, 4, 4);
    FieldShift(h, 12, m, 8, 2);
    FieldShift(h, 12, m, 10, 2);
    FieldShift(h, 12, m, 12, 4);
    FieldShift(h, 12, m, 16, 4);
    FieldShift(h, 12, m, 20, 2);
    FieldShift(h, 12, m, 22, 2);
  }

  lemma HeaderSizeFields(channels: nat, rate: nat, byteRate: nat, blockAlign: nat)
    ensures var h := Header(channels, rate, byteRate, blockAlign);
      Field(h, 4, 4) == 0 && Field(h, 40, 4) == 0
  {
    Pow256Values();
    var d := DataChunkHeader();
    var h := RiffChunkHeader() + FmtChunk(channels, rate, byteRate, blockAlign) + d;
    IntBytesRoundTrip(0, 4);
    assert h[..8] == RiffTag + IntBytes(0, 4);
    FieldOfLast(RiffTag, IntBytes(0, 4));
    FieldShift(h, 0, RiffTag + IntBytes(0, 4), 4, 4);
    assert h[36..44] == d;
    FieldOfLast(DataTag, IntBytes(0, 4));
    FieldShift(h, 36, d, 4, 4);
  }

  /**
   * The WAVE format's rule for the `fmt ` chunk: block align is channels
   * times bits per sample over 8, and byte rate is sample rate times block align.
   */
  predicate FormatConsistent(h: seq<byte>)
    requires |h| == 44
  {
    && Field(h, 32, 2) == Field(h, 22, 2) * Field(h, 34, 2) / 8
    && Field(h, 28, 4) == Field(h, 24, 4) * Field(h, 32, 2)
  }

  /** The corrected header obeys the rule whenever its numbers fit their fields. */
  lemma IntendedHeaderConsistent(channels: nat, rate: nat)
    requires channels * 4 < U16 && rate * channels * 4 < U32
    ensures |HeaderIntended(channels, rate)| == 44 && FormatConsistent(HeaderIntended(channels, rate))
  {
    var h := HeaderIntended(channels, rate);
    HeaderFields(channels, rate, Wrap(rate * channels * 4, U32), channels * 4);
    RuleHolds(h, channels, rate);
  }

  /** The rule, for a header whose numbers are the intended ones. */
  lemma RuleHolds(h: seq<byte>, channels: nat, rate: nat)
    requires |h| == 44 && channels * 4 < U16 && rate * channels * 4 < U32
    requires Field(h, 22, 2) == channels % U16 && Field(h, 24, 4) == rate % U32 && Field(h, 34, 2) == BitsPerSample
    requires Field(h, 28, 4) == Wrap(rate * channels * 4, U32) % U32 && Field(h, 32, 2) == (channels * 4) % U16
    ensures FormatConsistent(h)
  {
    var blockAlign := channels * 4;
    var byteRate := rate * channels * 4;
    assert channels * 32 / 8 == blockAlign by { LemmaModUnique(channels * 32, 8, blockAlign, 0); }
    LemmaModUnique(channels, U16, 0, channels);
    LemmaModUnique(blockAlign, U16, 0, blockAlign);
    LemmaModUnique(byteRate, U32, 0, byteRate);
    assert Field(h, 28, 4) == byteRate;
    if channels > 0 {
      assert rate < U32 by { LemmaMulLe(1, channels * 4, rate); }
      LemmaModUnique(rate, U32, 0, rate);
      assert rate * blockAlign == byteRate;
    }
  }

  /** As written, the block align of any non-empty channel count breaks the rule: it is an eighth of the right value. */
  lemma WrittenBlockAlignWrong(channels: nat, rate: nat)
    requires 1 <= channels < U16
    ensures |HeaderAsWritten(channels, rate)| == 44
    ensures Field(HeaderAsWritten(channels, rate), 32, 2) == channels / 2
    ensures !FormatConsistent(HeaderAsWritten(channels, rate))
  {
    var h := HeaderAsWritten(channels, rate);
    HeaderFields(channels, rate, Wrap(rate * 4 * channels, U32) / 8, (channels * 4) / 8);
    RuleFails(h, channels);
  }

  /** The rule, for a header whose block align is the one the code computes. */
  lemma RuleFails(h: seq<byte>, channels: nat)
    requires |h| == 44 && 1 <= channels < U16
    requires Field(h, 22, 2) == channels % U16 && Field(h, 34, 2) == BitsPerSample
    requires Field(h, 32, 2) == ((channels * 4) / 8) % U16
    ensures Field(h, 32, 2) == channels / 2 && !FormatConsistent(h)
  {
    var blockAlign := (channels * 4) / 8;
    assert blockAlign == channels / 2 by {
      LemmaModUnique(channels * 4, 8, channels / 2, 4 * (channels % 2));
    }
    assert blockAlign < U16 && Field(h, 32, 2) == blockAlign;
    assert Field(h, 22, 2) == channels;
    assert channels * 32 / 8 == 4 * channels by { LemmaModUnique(channels * 32, 8, 4 * channels, 0); }
    assert Field(h, 22, 2) * Field(h, 34, 2) / 8 == 4 * channels;
    assert blockAlign <= channels < 4 * channels;
  }

  /** Stereo at 48 kHz: the code writes byte rate 48000 and block align 1, where 384000 and 8 are meant. */
  lemma StereoHeader()
    ensures Field(HeaderAsWritten(2, 48000), 28, 4) == 48000 && Field(HeaderAsWritten(2, 48000), 32, 2) == 1
    ensures Field(HeaderIntended(2, 48000), 28, 4) == 384000 && Field(HeaderIntended(2, 48000), 32, 2) == 8
  {
    assert HeaderAsWritten(2, 48000) == Header(2, 48000, 48000, 1);
    assert HeaderIntended(2, 48000) == Header(2, 48000, 384000, 8);
    HeaderFields(2, 48000, 48000, 1);
    HeaderFields(2, 48000, 384000, 8);
  }

  // ---------------------------------------------------------- finalize

  /** `total_samples * num_channels * 4` in 64-bit arithmetic: the data chunk's byte count. */
  function DataBytes(totalSamples: nat, channels: nat): nat
  {
    Wrap(totalSamples * channels * 4, U64)
  }

  /** The file after `finalizeHeader`: the RIFF size at offset 4 and the data size at offset 40. */
  function Finalized(f: seq<byte>, totalSamples: nat, channels: nat): seq<byte>
    requires |f| >= 44
  {
    var d := DataBytes(totalSamples, channels);
    WriteAt(WriteAt(f, 4, IntBytes(Wrap(36 + d, U32), 4)), 40, IntBytes(Wrap(d, U32), 4))
  }

  /** Writing `bs` at `pos` in place: reading there gives `bs` back. */
  lemma FieldAfterWrite(f: seq<byte>, pos: nat, bs: seq<byte>)
    requires pos + |bs| <= |f|
    ensures |WriteAt(f, pos, bs)| == |f| && Field(WriteAt(f, pos, bs), pos, |bs|) == FromLittleEndian(bs)
  {
  }

  /** Writing `bs` at `pos` in place leaves every byte outside `pos .. pos+|bs|` as it was. */
  lemma WriteAtElsewhere(f: seq<byte>, pos: nat, bs: seq<byte>, i: nat)
    requires pos + |bs| <= |f| && i < |f| && !(pos <= i < pos + |bs|)
    ensures WriteAt(f, pos, bs)[i] == f[i]
  {
    var r := WriteAt(f, pos, bs);
    if i < pos {
      assert r[i] == r[..pos][i] && f[i] == f[..pos][i];
    } else {
      assert r[i] == r[pos + |bs|..][i - pos - |bs|] && f[i] == f[pos + |bs|..][i - pos - |bs|];
    }
  }

  /** Finalizing writes the two sizes. */
  lemma FinalizedFields(f: seq<byte>, totalSamples: nat, channels: nat)
    requires |f| >= 44
    ensures var r := Finalized(f, totalSamples, channels);
      && |r| == |f|
      && Field(r, 4, 4) == (36 + DataBytes(totalSamples, channels)) % U32
      && Field(r, 40, 4) == DataBytes(totalSamples, channels) % U32
  {
    Pow256Values();
    var d := DataBytes(totalSamples, channels);
    var w := Wrap(36 + d, U32);
    var v := Wrap(d, U32);
    var g := WriteAt(f, 4, IntBytes(w, 4));
    var r := WriteAt(g, 40, IntBytes(v, 4));
    FieldAfterWrite(f, 4, IntBytes(w, 4));
    FieldAfterWrite(g, 40, IntBytes(v, 4));
    forall i | 4 <= i < 8 ensures r[i] == g[i] {
      WriteAtElsewhere(g, 40, IntBytes(v, 4), i);
    }
    assert r[4..8] == g[4..8];
    IntBytesRoundTrip(w, 4);
    IntBytesRoundTrip(v, 4);
    LemmaModUnique(w, U32, 0, w);
    LemmaModUnique(v, U32, 0, v);
  }

  /** Finalizing changes no byte outside the two sizes. */
  lemma FinalizedKeeps(f: seq<byte>, totalSamples: nat, channels: nat, i: nat)
    requires |f| >= 44 && i < |f| && !(4 <= i < 8) && !(40 <= i < 44)
    ensures |Finalized(f, totalSamples, channels)| == |f| && Finalized(f, totalSamples, channels)[i] == f[i]
  {
    var d := DataBytes(totalSamples, channels);
    var g := WriteAt(f, 4, IntBytes(Wrap(36 + d, U32), 4));
    WriteAtElsewhere(f, 4, IntBytes(Wrap(36 + d, U32), 4), i);
    WriteAtElsewhere(g, 40, IntBytes(Wrap(d, U32), 4), i);
  }

  /**
   * For a file that holds the header and whole frames, and is shorter than
   * 4 GiB, finalizing makes the RIFF size the file length less 8 and the
   * data size the file length less 44, as the RIFF format requires.
   */
  lemma FinalizedSizesMatchFile(f: seq<byte>, totalSamples: nat, channels: nat)
    requires |f| == 44 + totalSamples * channels * 4 && |f| < U32
    ensures var r := Finalized(f, totalSamples, channels);
      |r| == |f| && Field(r, 4, 4) == |r| - 8 && Field(r, 40, 4) == |r| - 44
  {
    var d := totalSamples * channels * 4;
    assert DataBytes(totalSamples, channels) == d;
    FinalizedFields(f, totalSamples, channels);
    LemmaModUnique(36 + d, U32, 0, 36 + d);
    LemmaModUnique(d, U32, 0, d);
  }

  /** Appending `k` frames of `channels` 4-byte samples to a file of `t` frames. */
  lemma MoreFrames(size: nat, t: nat, k: nat, channels: nat)
    requires size == 44 + t * channels * 4
    ensures size + 4 * k * channels == 44 + (t + k) * channels * 4
  {
    MulAddDist(t, k, channels * 4);
  }

  /** The size bookkeeping of `writeData` on a file of whole frames, when nothing wraps. */
  lemma AppendsFrames(size0: nat, size: nat, t0: nat, t: nat, k: nat, channels: nat, n: nat)
    requires size0 == 44 + t0 * channels * 4
    requires 4 * k * channels < U32 && n == Wrap(4 * k * channels, U32) && size == size0 + n
    requires t0 + k < U64 && t == Wrap(t0 + k, U64)
    ensures size == 44 + t * channels * 4
  {
    MoreFrames(size0, t0, k, channels);
  }

  // --------------------------------------------------------------- file

  /** A `WAVFile`: the file's bytes and cursor, the format, and the number of frames written. */
  class WavFile {
    var file: seq<byte>
    var cursor: nat
    const numChannels: nat
    const samplerate: nat
    var totalSamples: nat

    /** The header is in place, the cursor is inside the file and the fields fit their C types. */
    ghost predicate Valid()
      reads this
    {
      44 <= |file| && cursor <= |file| && numChannels < U16 && samplerate < U32 && totalSamples < U64
    }

    /** Before finalizing: the cursor is at the end and the file is the header and whole frames. */
    ghost predicate Appending()
      reads this
    {
      cursor == |file| && |file| == 44 + totalSamples * numChannels * 4
    }

    /**
     * The constructor's body after `open` has succeeded on a freshly
     * truncated file: `total_samples` is 0 and the file holds just the
     * header. The failing `open` is `OpenWavFile`.
     */
    constructor (numChannels: nat, samplerate: nat)
      requires numChannels < U16 && samplerate < U32
      ensures Valid() && Appending()
      ensures this.numChannels == numChannels && this.samplerate == samplerate
      ensures totalSamples == 0 && file == HeaderAsWritten(numChannels, samplerate) && cursor == 44
    {
      this.numChannels := numChannels;
      this.samplerate := samplerate;
      totalSamples := 0;
      file := [];
      cursor := 0;
      new;
      InitHeader();
    }

    /** `write(fd, bs, |bs|)`: the bytes at the cursor, which moves past them. */
    method Write(bs: seq<byte>)
      requires cursor <= |file|
      modifies this`file, this`cursor
      ensures file == WriteAt(old(file), old(cursor), bs) && cursor == old(cursor) + |bs|
    {
      file := WriteAt(file, cursor, bs);
      cursor := cursor + |bs|;
    }

    /**
     * `writeInt(val, len)`: the low `len` bytes of the 32-bit `val` for a
     * length of 1, 2 or 4 (the casts to `uint8_t` and `uint16_t` keep the
     * low bytes, and the host is little-endian); any other length writes
     * nothing and prints an error.
     */
    method WriteInt(val: nat, len: nat)
      requires val < U32 && len < U8 && cursor <= |file|
      modifies this`file, this`cursor
      ensures file == WriteAt(old(file), old(cursor), IntBytes(val, len))
      ensures cursor == old(cursor) + |IntBytes(val, len)|
    {
      if len == 1 {
        Write(LittleEndian(val, 1));
      } else if len == 2 {
        Write(LittleEndian(val, 2));
      } else if len == 4 {
        Write(LittleEndian(val, 4));
      }
    }

    /** `initHeader`, on the freshly truncated file. */
    method InitHeader()
      requires file == [] && cursor == 0 && numChannels < U16 && samplerate < U32
      modifies this`file, this`cursor
      ensures file == HeaderAsWritten(numChannels, samplerate) && cursor == 44
    {
      var byteRate := Wrap(samplerate * 4 * numChannels, U32) / 8;
      var blockAlign := (numChannels * 4) / 8;
      assert blockAlign <= numChannels;
      WriteRiffChunkHeader();
      WriteFmtChunk(byteRate, blockAlign);
      ghost var m := file;
      assert m == RiffChunkHeader() + FmtChunk(numChannels, samplerate, byteRate, blockAlign);
      Write(DataTag);
      WriteInt(0, 4);
      Assoc(m, DataTag, IntBytes(0, 4));
      assert file == m + DataChunkHeader();
    }

    method WriteRiffChunkHeader()
      requires cursor == |file|
      modifies this`file, this`cursor
      ensures file == old(file) + RiffChunkHeader() && cursor == |file|
    {
      ghost var f := file;
      Write(RiffTag);
      WriteInt(0, 4);
      Assoc(f, RiffTag, IntBytes(0, 4));
      Write(WaveTag);
      Assoc(f, RiffTag + IntBytes(0, 4), WaveTag);
    }

    /** The `fmt ` chunk with the byte rate and block align as computed by the caller. */
    method WriteFmtChunk(byteRate: nat, blockAlign: nat)
      requires cursor == |file| && numChannels < U16 && samplerate < U32 && byteRate < U32 && blockAlign < U32
      modifies this`file, this`cursor
      ensures file == old(file) + FmtChunk(numChannels, samplerate, byteRate, blockAlign) && cursor == |file|
    {
      ghost var f := file;
      ghost var p1 := FmtTag + IntBytes(16, 4);
      ghost var p2 := p1 + IntBytes(IeeeFloat, 2);
      ghost var p3 := p2 + IntBytes(numChannels, 2);
      ghost var p4 := p3 + IntBytes(samplerate, 4);
      ghost var p5 := p4 + IntBytes(byteRate, 4);
      ghost var p6 := p5 + IntBytes(blockAlign, 2);
      Write(FmtTag);
      WriteInt(16, 4);
      Assoc(f, FmtTag, IntBytes(16, 4));
      WriteInt(IeeeFloat, 2);
      Assoc(f, p1, IntBytes(IeeeFloat, 2));
      WriteInt(numChannels, 2);
      Assoc(f, p2, IntBytes(numChannels, 2));
      WriteInt(samplerate, 4);
      Assoc(f, p3, IntBytes(samplerate, 4));
      WriteInt(byteRate, 4);
      Assoc(f, p4, IntBytes(byteRate, 4));
      WriteInt(blockAlign, 2);
      Assoc(f, p5, IntBytes(blockAlign, 2));
      WriteInt(BitsPerSample, 2);
      Assoc(f, p6, IntBytes(BitsPerSample, 2));
    }

    /**
     * `writeData(data, num_samples)`: `4*num_samples*num_channels` bytes of
     * samples, a 32-bit count, are written at the cursor, and
     * `total_samples` grows by `num_samples` in 64-bit arithmetic. `data` is
     * the sample buffer's bytes.
     */
    method WriteData(data: seq<byte>, numSamples: nat)
      requires Valid() && numSamples < U32 && Wrap(4 * numSamples * numChannels, U32) <= |data|
      modifies this`file, this`cursor, this`totalSamples
      ensures Valid()
      ensures var n := Wrap(4 * numSamples * numChannels, U32);
        file == WriteAt(old(file), old(cursor), data[..n]) && cursor == old(cursor) + n
      ensures totalSamples == Wrap(old(totalSamples) + numSamples, U64)
      ensures old(Appending()) && 4 * numSamples * numChannels < U32 && old(totalSamples) + numSamples < U64 ==> Appending()
    {
      var n := Wrap(4 * numSamples * numChannels, U32);
      ghost var f0, t0, appending := file, totalSamples, Appending();
      Write(data[..n]);
      totalSamples := Wrap(totalSamples + numSamples, U64);
      if appending && 4 * numSamples * numChannels < U32 && t0 + numSamples < U64 {
        assert file == f0 + data[..n];
        AppendsFrames(|f0|, |file|, t0, totalSamples, numSamples, numChannels, n);
      }
    }

    /** `finalizeHeader`: seek to 4 and write the RIFF size, seek to 40 and write the data size. */
    method FinalizeHeader()
      requires Valid()
      modifies this`file, this`cursor
      ensures Valid()
      ensures file == Finalized(old(file), totalSamples, numChannels) && cursor == 44
    {
      ghost var f := file;
      var dataBytes := Wrap(totalSamples * numChannels * 4, U64);
      assert dataBytes == DataBytes(totalSamples, numChannels);
      cursor := 4;
      WriteInt(Wrap(36 + dataBytes, U32), 4);
      ghost var g := file;
      assert |g| == |f|;
      cursor := 40;
      WriteInt(Wrap(dataBytes, U32), 4);
      assert file == WriteAt(g, 40, IntBytes(Wrap(dataBytes, U32), 4)) && |file| == |f|;
    }
  }

  /**
   * `new WAVFile(filename, num_channels, samplerate)`. `openOk` is whether
   * `open` succeeded; when it fails the constructor prints the error and
   * throws, so no file object results. Otherwise the object is the one the
   * constructor builds.
   */
  method OpenWavFile(openOk: bool, numChannels: nat, samplerate: nat) returns (w: WavFile?)
    requires numChannels < U16 && samplerate < U32
    ensures w == null <==> !openOk
    ensures w != null ==> fresh(w) && w.Valid() && w.Appending()
    ensures w != null ==> w.numChannels == numChannels && w.samplerate == samplerate
    ensures w != null ==> w.totalSamples == 0 && w.file == HeaderAsWritten(numChannels, samplerate) && w.cursor == 44
  {
    if !openOk {
      return null;
    }
    w := new WavFile(numChannels, samplerate);
  }
}
