# popuset bookkeeping, modelled in Dafny

popuset is a networked audio mixer. Sound cards feed an encoder, a broker
forwards the encoded audio between peers, and receivers decode it and
mix it into their output. Around the sockets, threads, PortAudio and Opus
calls there is a good deal of sequential, integer-indexed bookkeeping.
This project models that bookkeeping and proves what it does.

Samples are modelled as `int`: the code only copies, adds or zeroes them.
Wherever the source relies on a C integer type, the wrap-around is written
out: `uint16_t` offsets and lengths, `uint32_t` and `uint64_t` arithmetic,
`int16_t` counters, and C's division that truncates toward zero. Host byte
order is little-endian. What the program gets from outside is passed in as
a parameter: clock readings, PortAudio's device table, environment
variables, decoder output lengths, the disk's sector size and partitions.

One module per source file:

- `Circular` (ring_buffer.dfy): shared slot arithmetic for the two rings.
- `RingBuffers.RingBuffer` (ringbuffer.cpp): the FIFO of samples. It has
  strict availability checks, split reads and writes on wrap-around,
  zero-on-read, and the "amount moved since the last query" counters.
- `Qarb.QueueingAdditiveRingBuffer` (qarb.cpp): the ring that clients add
  into at an offset ahead of the single read cursor.
- `Mixer.PacketQueue` (receiver/mixer.c): the 100-slot packet ring. It
  drops packets when nearly full, inserts a forward-error-correction slot
  on a timestamp gap, and releases a packet only inside its presentation
  window.
- `Shim.ShimState` (c_shim/bundled/popuset_shim.cc): the deque of partly
  consumed buffers and the free list it recycles from. The callback drains
  frames across buffers and counts underruns.
- `ShimOld.OldShimState` (c_shim/bundled/popuset_shim_old.cc): the
  earlier shim, which selects frames by timestamp window. It drops late
  buffers and prunes stale ones from the front.
- `Packet` (receiver/net.c): the audio datagram layout and the time
  datagram rule. The datagram layout is a timestamp, a channel count, a
  length table, then the payloads. An `Encode` function for the sender's
  side gives the parse a round trip.
- `Device` (popuset.cpp): `parseDevice`, which cuts the device argument in
  place, and `new_strdup`.
- `Util` (util.cpp): `is_number` and `matchBeginnings`. `CLib` holds the
  C library functions the code calls (`atoi`, `strlen`-style string
  reading, `isdigit`, `isspace`, `strcasestr`), and `Machine` holds the
  integer widths.
- `Stats` (c_receiver/math.hpp): integer mean and variance, the masks,
  the stable index sort, `diff` and `subtract`.
- `Wav.WavFile` (wavfile.cpp): the 44-byte RIFF/WAVE header for IEEE
  float samples, and the data writes. The file is a byte sequence with a
  cursor.
- `Audio` and `ClientTables` (audio.cpp):
  - `mixdown_channels`;
  - the audio thread's client-list walk and table update;
  - `getDeviceId` and `is_silence`.
- `Broker.Broker` (net.cpp): the outbound set, the inbound clients and
  their sweep, and the client-list message for the audio thread. Its key
  order is that of `std::map`.
- `PartitionInfo` (img_builder/get_partition_info.py): the script's
  ordered checks and its offset and size arithmetic, with Python's `int()`
  and list indexing.
- `Config` (c_receiver/config.c): environment settings with defaults,
  the 16-bit range check, and the two IPv6 addresses.
- `Time` (receiver/time.c): the nanosecond join and split.

Several of the C and C++ files would not compile as written. The places
below are the ones the model passes through; the list is not exhaustive.
In each of them the model follows the evident intent of the code:
- `device.direction` for `device->direction` in popuset.cpp;
- `RingBuffer::write(const int …)` in ringbuffer.cpp:66, defined against
  the header's `unsigned int` declaration (ringbuffer.h:16); the count is
  a natural number in the model;
- in audio.cpp:
  - `clientSocks.find(identity) == clientSocks.empty()`, read as a test
    against `end()`;
  - `kv->first` on a reference, and `clientSocks.erase(kv)` on a pair
    (audio.cpp:107, 111), read as erasing that client's entry;
- `opus_decode_float` on the undeclared `device.decoder` and
  `encoded_data` in net.cpp, whose decoded length becomes a parameter;
- in config.c:
  - `search` for `env_val`;
  - `getenv(name, default)` for `getenv_default`;
  - `atoi()` for `atoi(str)`;
  - `default` as a parameter name (config.c:7 and 17), a C keyword;
  - `printf(stderr, …)` for `fprintf(stderr, …)` (config.c:21).

Where the code and its own text disagree, the model follows the code.
get_partition_info.py's usage message names exactly three arguments, but
its test `len(sys.argv) < 4` accepts any number from three up, and its
range check lets an index equal to the number of partitions through to the
subscript. The comment at net.cpp:124 describes a client-list buffer that
the code then fills differently; see Findings. ringbuffer.h:18 and 21
promise that `getAmountWritten` and `getAmountRead` return the amount
written or read since the last query, and the comment at qarb.cpp:50 says
the same of `getDelta`; all three compute `last - current` modulo the
length, which after a move of `k` slots is the length less `k`. See
Findings.

## Model

| member | source | states |
|---|---|---|
| Circular.WindowOfOverwrite | ringbuffer.cpp:54-80 | writing `xs` into the circular slots from `s` and then reading `|xs|` slots from `s` gives `xs` back, across the wrap |
| Circular.OverwriteOutside | ringbuffer.cpp:72-79 | a circular write leaves every slot outside its `|xs|`-slot window unchanged |
| Circular.WindowSplit | ringbuffer.cpp:54-57 | a read that wraps equals the batch up to the end of the array followed by the batch from slot 0 |
| Circular.OverwriteSplit | ringbuffer.cpp:72-75 | a write that wraps equals the write of the first `len - s` samples at `s` followed by the rest at slot 0 |
| Circular.SplitReadComposes | ringbuffer.cpp:54-61 | the two recursive reads of a wrapping read output the `n` slots from `readIdx` in circular order and zero exactly those slots |
| Circular.OffsetIsMod | ringbuffer.h:18-21 | the slots moved from `last` to `current`, `Offset(current, last, m)`, is `(current - last) mod m`: the amount since the last query that the header promises |
| Circular.OffsetCountsMoves | ringbuffer.h:18-21 | after an index moves `k < m` slots, `Offset` from where it was is `k` |
| Circular.DeltaAsWrittenCountsBackwards | ringbuffer.cpp:83-97 | the code's `last - current` corrected once into `[0, m)` is `m - k` after a move of `0 < k < m` slots |
| RingBuffers.SplitWriteComposes | ringbuffer.cpp:72-78 | the two recursive writes of a wrapping write store the input in the `n` circular slots from `writeIdx` |
| RingBuffers.RingBuffer.constructor | ringbuffer.cpp:4-12 | `len` slots, all zero, and all four indexes 0 |
| RingBuffers.RingBuffer.Readable | ringbuffer.cpp:29-35 | the circular distance from `readIdx` to `writeIdx`, below `len` |
| RingBuffers.RingBuffer.ReadableIsMod | ringbuffer.cpp:29-35 | `readable()` is `(writeIdx - readIdx) mod len` |
| RingBuffers.RingBuffer.Writable | ringbuffer.cpp:19-26 | `readable() + writable() == len`; equal indexes mean `writable() == len` |
| RingBuffers.RingBuffer.CanRead | ringbuffer.cpp:43-45 | `readable(n)` holds iff `n` plus the free slots is below `len`: strictly more than `n` samples are queued |
| RingBuffers.RingBuffer.CanWrite | ringbuffer.cpp:38-40 | `writable(n)` holds iff `n` plus the readable samples is below `len`: strictly more than `n` slots are free |
| RingBuffers.RingBuffer.Contents | ringbuffer.cpp:29-35 | the queued samples, `readable()` of them, in FIFO order from `readIdx` |
| RingBuffers.RingBuffer.Read | ringbuffer.cpp:43-64 | succeeds iff `readable() > n`; on failure nothing changes; on success outputs the `n` circular slots from `readIdx`, zeroes exactly those, advances `readIdx` by `n` mod `len`, leaves `writeIdx` alone, and removes the first `n` queued samples |
| RingBuffers.RingBuffer.ReadWrapped | ringbuffer.cpp:54-57 | the wrapping branch of `read`: outputs the `n` circular slots and zeroes them |
| RingBuffers.RingBuffer.CopyOutAndZero | ringbuffer.cpp:58-62 | the contiguous branch of `read`: `memcpy` out, `memset` to 0, advance `readIdx` |
| RingBuffers.RingBuffer.Write | ringbuffer.cpp:38-81 | succeeds iff `writable() > n`; on failure nothing changes; on success stores `input[..n]` in the `n` circular slots from `writeIdx`, every other slot and `readIdx` unchanged, advances `writeIdx` by `n` mod `len`, and appends the samples to the queue |
| RingBuffers.RingBuffer.WriteWrapped | ringbuffer.cpp:72-75 | the wrapping branch of `write` |
| RingBuffers.RingBuffer.CopyIn | ringbuffer.cpp:76-79 | the contiguous branch of `write`: `memcpy` in and advance `writeIdx` |
| RingBuffers.RingBuffer.GetAmountWritten | ringbuffer.cpp:83-89 | returns the code's `(last_writeIdx - writeIdx) mod len` in `[0, len)`, not the slots moved, and stores `writeIdx` in `last_writeIdx`, so a repeat returns 0 |
| RingBuffers.RingBuffer.GetAmountRead | ringbuffer.cpp:91-97 | the same for `last_readIdx` and `readIdx` |
| RingBuffers.ContentsAfterWrite | ringbuffer.cpp:66-81 | writing after the queued samples extends the queue by exactly the written samples |
| RingBuffers.WriteKeepsFifo | ringbuffer.cpp:66-81 | a write grows `readable()` by `|xs|` and appends `xs` to the queue |
| RingBuffers.ReadKeepsFifo | ringbuffer.cpp:47-64 | a read shrinks `readable()` by `n`, outputs the first `n` queued samples and keeps the rest in order |
| RingBuffers.ContentsAfterRead | ringbuffer.cpp:47-64 | the output is the queue's first `n` samples and the queue keeps the remainder |
| RingBuffers.WriteThenReadSameAmount | ringbuffer.cpp:38-48 | on an empty buffer a write of `n` succeeds iff `n < len`, and then a read of the same `n` fails, because both checks are strict |
| RingBuffers.WriteThenAskAmount | ringbuffer.cpp:83-89 | right after a successful write of `n > 0` samples, `getAmountWritten` returns `len - n`, while `writeIdx` moved `n` slots |
| RingBuffers.ReadThenAskAmount | ringbuffer.cpp:91-97 | right after a successful read of `n > 0` samples, `getAmountRead` returns `len - n`, while `readIdx` moved `n` slots |
| Qarb.AdvanceIsMod | qarb.cpp:37-46 | stepping `k` slots round the ring lands on `(t + k) mod m` |
| Qarb.AdvanceAdd | qarb.cpp:45-46 | advancing by `a` and then by `b` is advancing by `a + b`, as the batches of `write` do |
| Qarb.ContributionAppend | qarb.cpp:39-47 | what a write adds to a slot is what its first part adds plus what the rest adds from where the first part stopped |
| Qarb.ContributionWithin | qarb.cpp:36-47 | a write of at most `datalen` samples adds `xs[i]` to slot `(t + i) mod datalen` and nothing to any other slot |
| Qarb.ContributionContiguous | qarb.cpp:42-43 | a batch that does not wrap adds `xs[j - t]` to slot `j` of its range and nothing elsewhere |
| Qarb.ContributionPlus | qarb.cpp:43 | additions are linear: two inputs add what their element-wise sum adds |
| Qarb.WritesAdd | qarb.cpp:43 | two writes at the same position leave the ring holding its prior contents plus the element-wise sum of both inputs |
| Qarb.AddOutsideWindow | qarb.cpp:41-46 | a write of at most `datalen` samples leaves every slot outside its window unchanged |
| Qarb.WindowOfAdd | qarb.cpp:36-47 | the written window holds its prior contents plus the input |
| Qarb.DrainedWindowIsSilent | qarb.cpp:31-32 | after a read, the slots it read hold 0 |
| Qarb.ReadAfterWriteIntoSilence | qarb.cpp:17-47 | writing `xs` onto silent slots and reading them gives `xs` back |
| Qarb.LongReadComposes | qarb.cpp:17-34 | a read of more than `datalen` samples (the first batch, then the remainder recursively) outputs the ring once followed by the zeros it left, and zeroes the ring |
| Qarb.IdxComposes | qarb.cpp:19-26 | the two recursive reads move `idx` to `(idx + n) mod datalen` |
| Qarb.ReadComposes | qarb.cpp:19-22 | the two recursive reads of a wrapping read output the circular window and zero it |
| Qarb.BatchAdds | qarb.cpp:39-47 | one batch of the `write` loop extends the addition of the first `a` samples to the first `a + b` |
| Qarb.QueueingAdditiveRingBuffer.constructor | qarb.cpp:6-11 | `datalen == len`, `idx == last_idx == 0`, and the slots are whatever memory held: they are not zeroed |
| Qarb.QueueingAdditiveRingBuffer.Read | qarb.cpp:17-34 | with no availability check: outputs `n` samples from `idx` circularly (the ring at most once, then zeros), zeroes what it read, sets `idx := (idx + n) mod datalen`, leaves `last_idx` alone |
| Qarb.QueueingAdditiveRingBuffer.Contiguous | qarb.cpp:23-33 | the branch that does not wrap: move `idx`, copy out, zero |
| Qarb.QueueingAdditiveRingBuffer.Write | qarb.cpp:36-48 | adds `input[i]` to slot `(idx + offset + i) mod datalen` for every `i < n`, going round as often as needed, and never changes `idx` or `last_idx` |
| Qarb.QueueingAdditiveRingBuffer.AddBatch | qarb.cpp:42-43 | the inner `for` loop adds one batch in place and changes nothing else |
| Qarb.QueueingAdditiveRingBuffer.WriteStart | qarb.cpp:37 | the first slot written, `(idx + offset) mod datalen` after 32-bit unsigned addition |
| Qarb.QueueingAdditiveRingBuffer.GetDelta | qarb.cpp:51-57 | returns the code's `(last_idx - idx) mod datalen` in `[0, datalen)`, not the slots moved, and sets `last_idx := idx`, so a repeat returns 0 |
| Qarb.ReadThenAskDelta | qarb.cpp:51-57 | after a read of `0 < n < datalen` samples, `getDelta` returns `datalen - n`, while `idx` moved `n` slots |
| Mixer.BuffTimeValue | receiver/mixer.c:57 | `buff_time = 480 * (1000000000 / 48000)` with integer division is 9999840 ns |
| Mixer.Earliest | receiver/mixer.c:60 | the release threshold `timestamp - buff_time` in unsigned 64-bit arithmetic |
| Mixer.Latest | receiver/mixer.c:69 | the drop threshold `timestamp + buff_time` in unsigned 64-bit arithmetic |
| Mixer.Inserted | receiver/mixer.c:32-44 | one or two packets, the last stamped `timestamp`; an extra slot stamped `timestamp - 10000000` comes first when the timestamp jumps |
| Mixer.Released | receiver/mixer.c:51-74 | `next_packet` on a queue: it never consumes more packets than are queued |
| Mixer.ReleasedSkipsOnlyLate | receiver/mixer.c:65-72 | every packet consumed and skipped was past `timestamp + buff_time` when inspected |
| Mixer.ReleasedIsDue | receiver/mixer.c:59-73 | a returned packet is the last one consumed and satisfies `timestamp - buff_time <= curr_time <= timestamp + buff_time` |
| Mixer.ReleasedNothingIsEarly | receiver/mixer.c:52-63 | `NULL` means the queue was emptied or the head is still `buff_time` ahead, and that head is not consumed |
| Mixer.PacketQueue.constructor | receiver/mixer.c:5-76 | both indexes 0, `last_timestamp` 0, `in_underrun` 1, the slots uninitialised |
| Mixer.PacketQueue.Queued | receiver/mixer.c:16-21 | the number of queued packets, `(write_idx - read_idx)` normalised into `[0, 100)` |
| Mixer.PacketQueue.Queue | receiver/mixer.c:16-21 | the queued packets in order from `read_idx`, `packets_queued()` of them |
| Mixer.PacketQueue.PacketsQueued | receiver/mixer.c:16-21 | the C remainder followed by the `while (val < 0)` loop gives `(write_idx - read_idx) mod 100` |
| Mixer.PacketQueue.Push | receiver/mixer.c:34-43 | stores one packet at `write_idx`, advances it mod 100, and appends the packet to the queue |
| Mixer.PacketQueue.QueuePacket | receiver/mixer.c:24-49 | returns `NULL` and changes nothing iff `packets_queued() >= 98`; otherwise appends the FEC slot (on a jump) and the packet, advances `write_idx` by one or two mod 100, sets `last_timestamp := timestamp` and returns the packet |
| Mixer.PacketQueue.NextPacket | receiver/mixer.c:51-74 | the result, the new `read_idx` and the remaining queue are those `Released` describes: late packets are consumed and skipped, an early head stays |
| Mixer.PacketQueue.ConsumeHead | receiver/mixer.c:66 | removes exactly the head packet |
| Mixer.PacketQueue.MixerCallback | receiver/mixer.c:77-102 | exits when `framesPerBuffer != 480`; otherwise `in_underrun` is 1 exactly when `next_packet` yields `NULL` and 0 otherwise, and the output is silence or the packet's samples |
| Mixer.LateHeadSkipped | receiver/mixer.c:66-72 | consuming a late head and recursing gives what `Released` gives for the whole queue |
| Shim.FreeBuff | c_shim/bundled/popuset_shim.cc:81-87 | `data` becomes NULL and `num_frames`, `frames_consumed` and `num_channels` become 0 |
| Shim.FirstMatch | c_shim/bundled/popuset_shim.cc:95-107 | the position of the first free-list buffer with `num_frames == nframes` and `num_channels == nchannels`; none before it matches, and `None` means none matches at all |
| Shim.Frames | c_shim/bundled/popuset_shim.cc:187-191 | the `k` frames of a buffer that follow those already consumed |
| Shim.DrainWritten | c_shim/bundled/popuset_shim.cc:169-195 | the consume loop writes `min(frameCount, pending frames of buffers with the stream's channel count)` frames, so `write_idx <= frameCount`, and copies out that many frames of the stream's width |
| Shim.DrainKeepsWellFormed | c_shim/bundled/popuset_shim.cc:193-204 | no buffer left in `buffer_list` is consumed past its end |
| Shim.DrainConserves | c_shim/bundled/popuset_shim.cc:187-195 | the pending frames left in `buffer_list` plus the frames written equal the pending frames before: each step adds its `frames_to_consume` to `frames_consumed` and to `write_idx` |
| Shim.DrainFreesOnlySpent | c_shim/bundled/popuset_shim.cc:177-201 | every buffer moved to the free list either has the wrong channel count or is fully consumed; a partly consumed one goes back to the front of `buffer_list` |
| Shim.ShimState.constructor | c_shim/bundled/popuset_shim.cc:18-50 | empty lists, zero statistics, not muted |
| Shim.ShimState.SetMute | c_shim/bundled/popuset_shim.cc:77-79 | sets `mute` |
| Shim.ShimState.Queue | c_shim/bundled/popuset_shim.cc:89-124 | pops free-list buffers from the front until one has the requested shape; that one is reused, the ones popped before it are freed; without a match the free list ends empty and a new buffer is allocated; either way a buffer of `nframes` frames, `nchannels` channels and `frames_consumed = 0` holding the data is appended to `buffer_list` |
| Shim.ShimState.TakeReusable | c_shim/bundled/popuset_shim.cc:92-108 | the free-list scan: the first matching buffer with `frames_consumed = 0`, or the empty `{NULL, 0, 0}` buffer with the free list emptied |
| Shim.ShimState.MixHorizonFrames | c_shim/bundled/popuset_shim.cc:56-60 | the sum of `num_frames - frames_consumed` over `buffer_list`, in 32-bit unsigned arithmetic |
| Shim.ShimState.GetStats | c_shim/bundled/popuset_shim.cc:72-76 | stores `buffer_list.size()` in `buffers_queued` and returns the statistics |
| Shim.ShimState.ProcessCallback | c_shim/bundled/popuset_shim.cc:155-239 | with no output buffer nothing changes; otherwise the consume loop runs (`Drain`), `total_consumed` grows by the frames written, a short write increments `buffer_underruns`, sets `in_underrun` to 1 and zero-fills the rest, a full write sets `in_underrun` to 0, and muting zeroes the whole output |
| Shim.ShimState.DrainBuffers | c_shim/bundled/popuset_shim.cc:169-205 | the `while` loop: the new lists, the frames written and the samples copied are those `Drain` gives |
| Shim.ShimState.ConsumeFront | c_shim/bundled/popuset_shim.cc:170-204 | one loop iteration: the front buffer is popped and either retired or consumed, keeping the loop invariant |
| Shim.ShimState.RetireMismatched | c_shim/bundled/popuset_shim.cc:177-184 | a buffer whose channel count differs from the stream's goes to the front of the free list, unconsumed |
| Shim.ShimState.ConsumeFrames | c_shim/bundled/popuset_shim.cc:186-204 | consumes `min(frameCount - write_idx, num_frames - frames_consumed)` frames; a fully consumed buffer goes to the front of the free list, a partly consumed one back to the front of `buffer_list` |
| Shim.SkipStep | c_shim/bundled/popuset_shim.cc:177-184 | retiring a mismatched front buffer keeps the loop invariant |
| Shim.TakeStep | c_shim/bundled/popuset_shim.cc:186-204 | consuming from a matching front buffer keeps the loop invariant |
| Shim.Silence | c_shim/bundled/popuset_shim.cc:229-237 | `n` frames of `ch` zero samples |
| Shim.PendingSuffix | c_shim/bundled/popuset_shim.cc:58-60 | the pending frames of a suffix of `buffer_list` never exceed those of the whole list |
| ShimOld.Pruned | c_shim/bundled/popuset_shim_old.cc:61-65 | the pruning loop: no longer than the list, and afterwards the front buffer does not end before the horizon |
| ShimOld.PrunedIsSuffix | c_shim/bundled/popuset_shim_old.cc:61-65 | pruning only pops from the front, so what is left is a suffix in the same order |
| ShimOld.PrunedDropsOnlyStale | c_shim/bundled/popuset_shim_old.cc:61 | every popped buffer had `timestamp + nframes < last_presentation_end` |
| ShimOld.PrunedKeepsLast | c_shim/bundled/popuset_shim_old.cc:48-65 | a buffer that passed the line-48 test is never popped, so it stays at the back |
| ShimOld.PruneStep | c_shim/bundled/popuset_shim_old.cc:61-65 | one pop keeps the loop invariant and the list never becomes empty |
| ShimOld.OldShimState.constructor | c_shim/bundled/popuset_shim_old.cc:25-70 | nothing queued, horizon 0, counters 0, `in_underrun` true |
| ShimOld.OldShimState.Queue | c_shim/bundled/popuset_shim_old.cc:46-66 | drops the buffer and changes nothing iff `presentation_time + nframes < last_presentation_end` in 64 bits; otherwise appends it, prunes stale buffers from the front, and the new buffer is last |
| ShimOld.OldShimState.ProcessCallback | c_shim/bundled/popuset_shim_old.cc:77-135 | with no output nothing changes; otherwise `last_presentation_end := presentation_start + frameCount`, the copies and `write_idx` are those of the scan, `num_consumed` counts the buffers used, and `write_idx < frameCount` increments `num_underruns` and sets `in_underrun`, else clears it |
| ShimOld.OldShimState.ScanBuffers | c_shim/bundled/popuset_shim_old.cc:89-112 | the `for` loop over `buffer_list` makes exactly the copies `Scan` describes |
| ShimOld.ScanPicks | c_shim/bundled/popuset_shim_old.cc:95-111 | using a buffer keeps the scan invariant, or ends the scan once `write_idx == frameCount` |
| ShimOld.ScanSkips | c_shim/bundled/popuset_shim_old.cc:95-111 | passing over a buffer keeps the scan invariant, or ends the scan once the output is full |
| ShimOld.PickWithinWindow | c_shim/bundled/popuset_shim_old.cc:97-108 | without 64-bit wrap-around a copy starts at `write_idx` and stays inside the remaining window |
| ShimOld.ScanWithinWindow | c_shim/bundled/popuset_shim_old.cc:89-112 | without wrap-around the copies tile the output back to back from frame 0, and `write_idx <= frameCount` |
| ShimOld.ScanStopsAtHorizon | c_shim/bundled/popuset_shim_old.cc:90-95 | every buffer copied from overlapped the window, and the scan stops at the first buffer with `timestamp >= last_presentation_end` |
| ShimOld.PickInsideBuffer | c_shim/bundled/popuset_shim_old.cc:97-98 | a buffer that started at or before the cursor is read inside its own frames: `buff_offset + read_len <= nframes` |
| ShimOld.GapOffsetWraps | c_shim/bundled/popuset_shim_old.cc:95-98 | a buffer that starts after the cursor passes the overlap test, but `buff_offset` wraps to `2^64 - 5`, outside the buffer |
| ShimOld.PickIntended | c_shim/bundled/popuset_shim_old.cc:95-111 | the intended copy from an overlapping buffer starts at or after the cursor, stays inside the window and the buffer, and pairs each output frame with the buffer frame of the same presentation time, also for a buffer after a gap |
| ShimOld.PickIntendedAgrees | c_shim/bundled/popuset_shim_old.cc:95-98 | for a buffer that starts at or before the cursor the intended copy is the code's |
| ShimOld.GapIntended | c_shim/bundled/popuset_shim_old.cc:95-98 | for the buffer of `GapOffsetWraps` the intended copy is its first 5 frames into output frames 5 to 9 |
| Packet.ReceiveTimePacket | receiver/net.c:28-58 | a short read returns the sentinel 0 exactly when `errno` is `EAGAIN` and exits the process otherwise; a full read returns a 64-bit value |
| Packet.TimePacketRoundTrip | receiver/net.c:32-57 | a full read of a sent 8-byte timestamp returns that timestamp |
| Packet.U64RoundTrip | receiver/net.c:69 | reading 8 bytes as a host-order (little-endian) `uint64_t` inverts writing it |
| Packet.U16RoundTrip | receiver/net.c:79 | reading 2 bytes as a `uint16_t` inverts writing it |
| Packet.LenAt | receiver/net.c:79 | `data_lens[c]`, the 16-bit entry `c` of the table at offset 9 |
| Packet.DataOffset | receiver/net.c:80-83 | `our_data_offset`, a `uint16_t`: `9 + 2*channels` plus the first `n` table entries, each addition wrapping |
| Packet.Parse | receiver/net.c:68-86 | `NULL` iff `channel_idx > channels_in_packet` (byte 8); otherwise the timestamp is the first 8 bytes and the payload has the offset and length the table gives |
| Packet.Receiver.ReceiveAudioPacket | receiver/net.c:62-88 | a zero-byte read returns `NULL` and changes nothing; otherwise the datagram overwrites the front of the static buffer, `packet.timestamp` is set from its first 8 bytes even when the index is rejected, and the call succeeds iff `Parse` does, handing the decoder the payload `Parse` selects |
| Packet.Receiver.OursOffset | receiver/net.c:80-83 | the `for` loop computes `DataOffset` |
| Packet.Head | receiver/net.c:68-79 | the header a sender writes: timestamp, channel count, length table |
| Packet.Encode | receiver/net.c:68-86 | a whole datagram: header then payloads back to back |
| Packet.ConcatAt | receiver/net.c:80-86 | payload `c` sits in the concatenation after the lengths of the payloads before it |
| Packet.LenAtEncoded | receiver/net.c:79 | in an encoded datagram, table entry `c` is the length of payload `c` |
| Packet.DataOffsetEncoded | receiver/net.c:80-83 | in an encoded datagram that fits 16 bits, the offset loop lands at `9 + 2*channels + sum of the earlier payload lengths` |
| Packet.HeaderEncoded | receiver/net.c:69-72 | in an encoded datagram the parsed timestamp and channel count are the ones sent |
| Packet.ParseEncoded | receiver/net.c:62-88 | round trip: parsing an encoded datagram for a valid channel gives the sent timestamp and exactly that channel's payload |
| Packet.PayloadEncoded | receiver/net.c:80-86 | the offset and length read for channel `c` select exactly payload `c` |
| Packet.ChannelCountIndexAccepted | receiver/net.c:73-86 | `channel_idx == channels_in_packet` is not rejected: with one 2-byte payload, channel 1 reads that payload as its length (513) and selects 513 bytes past the datagram's end |
| Packet.Receiver.constructor | receiver/net.c:60-61 | the static receive buffer of `MAX_PACKET_SIZE` bytes and the `packet` struct start zeroed |
| Packet.ParseChecked | receiver/net.c:73-76 | with `>=` in place of `>`, an index is rejected iff it is not below the channel count, and an accepted one parses as before |
| Packet.ParseCheckedEncoded | receiver/net.c:62-88 | on an encoded datagram the checked parse accepts exactly the channels present, each with the sent timestamp and exactly its payload |
| Device.SplitJoin | popuset.cpp:36-52 | cutting the argument at its first two colons loses nothing: joining the pieces with colons gives the argument back |
| Device.SplitAtFirstColons | popuset.cpp:36-52 | the direction text and the name or id contain no colon; with no colon at all the whole argument is the name or id and there is no channel piece |
| Device.NoColonNoSpecifiers | popuset.cpp:36-40 | there is no direction piece iff the argument has no colon, and then the argument is the name or id |
| Device.Cut | popuset.cpp:36-52 | the in-place cut writes NUL over the first one or two colons and reports the positions of the pieces, as `CutPositions` gives them |
| Device.CutReads | popuset.cpp:36-52 | after the cut, the C strings at the reported positions are exactly the pieces `Split` gives |
| Device.ParseDevice | popuset.cpp:31-136 | `parseDevice` crashes on the NULL device info exactly when `ParseAsWritten` refuses with `NoDeviceInfo`, returns NULL after a message for the other refusals, and otherwise returns a new device holding the id, name, channel count and direction `ParseAsWritten` chooses; `optarg` ends cut; the names are the strings `new_strdup` was given, not its NUL-less copies |
| Device.SetIdentity | popuset.cpp:58-64 | the id is the number when the piece is numeric (`is_number`, `atoi`) and otherwise `getDeviceId` of the name; the name is PortAudio's name for a numeric id; it is the string `new_strdup` was given, not its NUL-less copy |
| Device.SetDirection | popuset.cpp:70-94 | the direction is set iff `ChooseDirection` finds one |
| Device.SetChannels | popuset.cpp:96-132 | the channel count is set iff `ChooseChannels` gives one, and is that count |
| Device.DecideChosen | popuset.cpp:58-132 | a chosen device is the one looked up, with an entry in the device table, in the direction and with the count chosen for it; a lookup outside the table is refused |
| Device.CrashIffUnknownIndex | popuset.cpp:58-67 | the parse ends at the NULL dereference exactly when the index looked up has no device |
| Device.NumericIdSelectsDevice | popuset.cpp:58-60 | a numeric piece selects that device index and PortAudio's name for it, the same as written and as intended |
| Device.DecideIgnoresLookupName | popuset.cpp:58-60 | for a numeric piece, the string a name would have been looked up under does not matter |
| Device.NameSelectsFirstMatch | popuset.cpp:61-64 | as intended, a name selects the first device whose name contains it ignoring case; no such device means refusal |
| Device.DirectionRule | popuset.cpp:71-94 | a specifier means input iff it and "input" match at the beginning (one is a prefix of the other), and output iff it matches "output" but not "input"; without one, input iff only the input side has channels and output iff only the output side does |
| Device.DirectionAbbreviations | popuset.cpp:72-75 | "in", "inputs" and even "" mean input, "o" and "out" mean output, "x" is invalid |
| Device.ChannelCount | popuset.cpp:96-132 | a given count is accepted iff it is a number whose 16-bit value does not exceed the maximum, and is then that value; without one, the count is `min(2, max)` and is accepted iff it is non-zero; an accepted count never exceeds the maximum |
| Device.EmptyChannelCount | popuset.cpp:97-104 | an empty channel piece passes `is_number` and asks for 0 channels |
| Device.NameLookupUsesDirection | popuset.cpp:61-63 | "output:Speakers" with one output device called "Speakers" is refused as written: the lookup is for "output" |
| Device.NameLookupIntended | popuset.cpp:61-63 | as intended, the same argument chooses device 0, "Speakers", for output, with 2 channels |
| Device.NewStrdup | popuset.cpp:23-28 | as written, the copy holds the string's `strlen` characters and no terminating NUL |
| Device.StrdupCopyUnterminated | popuset.cpp:23-28 | the copy holds no NUL, so it cannot be read back as a C string |
| Device.NewStrdupTerminated | popuset.cpp:23-28 | as intended, the copy holds the string and its terminating NUL |
| Device.StrdupTerminatedRoundTrip | popuset.cpp:23-28 | the terminated copy reads back as exactly the string copied |
| Device.AudioDevice.constructor | popuset.cpp:55 | `new audio_device()` zeroes every field, which makes the direction `INPUT` |
| Util.IsNumberMeansDigitsAndSpaces | util.cpp:23-29 | `is_number` holds iff every character is a digit or white space |
| Util.IsNumberEdgeCases | util.cpp:23-29 | the empty string and " 12 " are numbers; "-1", "+1" and "1.5" are not |
| Util.MatchBeginningsMeansPrefix | util.cpp:142-148 | `matchBeginnings(x, y)` holds iff one string is a prefix of the other |
| Util.MatchBeginningsLaws | util.cpp:142-148 | it is symmetric and reflexive, and the empty string matches every string |
| Stats.MeanVar | c_receiver/math.hpp:6-24 | `mean_var` outputs the mean, truncated toward zero, and the sample variance (squared deviations from that mean divided by `len - 1`) of the first `len` elements |
| Stats.MeanTruncates | c_receiver/math.hpp:13 | the mean is within one element count of the exact quotient, and rounds down for a non-negative sum |
| Stats.ConstantMeanVar | c_receiver/math.hpp:6-24 | a constant sequence has that constant as its mean and variance 0 |
| Stats.MaskedMeanVar | c_receiver/math.hpp:27-59 | `masked_mean_var` as written, over arrays: the outcome `MaskedMeanVarAsWritten` gives for the first `len` elements and mask entries |
| Stats.MaskedSum | c_receiver/math.hpp:32-37 | the first loop sums exactly the elements whose mask entry is 1 and counts them in an `int16_t` |
| Stats.MaskedDeviations | c_receiver/math.hpp:48-53 | the second loop sums the squared deviations of exactly the accepted elements |
| Stats.MaskedMeanVarRejectsAll | c_receiver/math.hpp:38-46 | with no element accepted the code as written divides by zero before its sanity check; with the check first it outputs 0 and 0 |
| Stats.MaskedMeanVarChecked | c_receiver/math.hpp:38-46 | with the check moved before the division, every mask gives outputs |
| Stats.MaskedMeanVarIsMeanVarOfAccepted | c_receiver/math.hpp:27-59 | where the written code does not divide by zero it agrees with the checked form, which (below 32768 accepted) is the mean and variance of the accepted elements, or 0 and 0 for fewer than two |
| Stats.BuildVarMask | c_receiver/math.hpp:62-92 | below 10 elements every entry is 1 and `len` is returned; otherwise entry `i` is 1 iff its squared deviation from the mean is within the threshold, and the number of ones is returned; entries past `len` are untouched |
| Stats.MarkWithin | c_receiver/math.hpp:79-91 | the marking loop sets each entry to whether its element is within the threshold of `mu`, and counts the ones |
| Stats.VarMaskAccepts | c_receiver/math.hpp:79-91 | the elements a variance mask accepts are as many as its ones, and each is within the threshold |
| Stats.CountOnesOnes | c_receiver/math.hpp:65-67 | the all-ones mask accepts every element |
| Stats.SortIndexes | c_receiver/math.hpp:134-151 | `sort_indexes` returns one index per element, each below the length, and every index `0..len-1` occurs |
| Stats.SortIndexesStable | c_receiver/math.hpp:134-151 | `sort_indexes` is a permutation of `0..len-1` ordered by value, and equal values keep their index order |
| Stats.BuildMinMask | c_receiver/math.hpp:153-163 | the mask holds 1 exactly at the first `k` sorted indexes and 0 at every other entry up to `len` |
| Stats.MinMaskKeepsSmallest | c_receiver/math.hpp:153-163 | every kept element is no larger than every element left out |
| Stats.Diff | c_receiver/math.hpp:165-170 | the differences of neighbours: one fewer than the elements (none for an empty input), entry `i` being `x[i] - x[i+1]` |
| Stats.DiffInto | c_receiver/math.hpp:165-170 | `diff` writes `x[i] - x[i+1]` for the first `len - 1` entries and nothing else; for `len <= 1` it writes nothing |
| Stats.DiffTelescopes | c_receiver/math.hpp:165-170 | the first `j` differences sum to `x[0] - x[j]` |
| Stats.Subtract | c_receiver/math.hpp:172-177 | the element-wise difference of two equally long sequences |
| Stats.SubtractInto | c_receiver/math.hpp:172-177 | `subtract` writes `a[i] - b[i]` for the first `len` entries and nothing else; for `len <= 0` it writes nothing |
| Stats.SumSubtract | c_receiver/math.hpp:172-177 | the sum of the differences is the difference of the sums |
| Wav.WriteAt | wavfile.cpp:36-80 | a write at the cursor replaces the bytes there, keeps those before and after, and grows the file when it runs past the end |
| Wav.IntBytesRoundTrip | wavfile.cpp:32-49 | `writeInt` of 1, 2 or 4 bytes writes the value's low-order bytes, which read back as the value modulo 2^8, 2^16 or 2^32 |
| Wav.HeaderTags | wavfile.cpp:51-70 | the header is 44 bytes with "RIFF", "WAVE", "fmt " and "data" at offsets 0, 8, 12 and 36 |
| Wav.HeaderFields | wavfile.cpp:51-70 | the header's fields read back as written: sizes 0 and 16, format 3 (IEEE float), the channel count, the sample rate, the byte rate, the block align and 32 bits per sample |
| Wav.WrittenBlockAlignWrong | wavfile.cpp:64 | for every channel count, the written block align is `channels / 2`: a header that breaks the format's rule |
| Wav.RuleFails | wavfile.cpp:64 | any header with that block align breaks the rule that block align is channels times bits per sample over 8 |
| Wav.StereoHeader | wavfile.cpp:63-64 | at 2 channels and 48000 Hz the code writes byte rate 48000 and block align 1; the format calls for 384000 and 8 |
| Wav.IntendedHeaderConsistent | wavfile.cpp:63-64 | the intended header obeys the format's rule whenever its numbers fit their fields |
| Wav.RuleHolds | wavfile.cpp:63-64 | any header with the intended numbers obeys the rule |
| Wav.FinalizedFields | wavfile.cpp:72-77 | after `finalizeHeader` offset 4 holds `36 +` the data byte count and offset 40 holds the data byte count, each in 32 bits |
| Wav.FinalizedKeeps | wavfile.cpp:72-77 | it changes no other byte of the file |
| Wav.FinalizedSizesMatchFile | wavfile.cpp:72-77 | for a file of the header and whole frames, the two sizes are the file's length less 8 and less 44 |
| Wav.WavFile.constructor | wavfile.cpp:15-20 | once `open` has succeeded, the new file holds just the header, with no samples counted and the cursor after the header |
| Wav.OpenWavFile | wavfile.cpp:8-21 | no file object results exactly when `open` fails (the constructor throws); otherwise the object the constructor builds |
| Wav.WavFile.Write | wavfile.cpp:36-80 | `write` puts the bytes at the cursor and moves the cursor past them |
| Wav.WavFile.WriteInt | wavfile.cpp:32-49 | `writeInt` writes the value's 1, 2 or 4 low-order bytes, and nothing for any other length |
| Wav.WavFile.InitHeader | wavfile.cpp:51-70 | on an empty file, `initHeader` leaves exactly the header as written, with the cursor at 44 |
| Wav.WavFile.WriteRiffChunkHeader | wavfile.cpp:53-55 | appends the 12-byte RIFF chunk header |
| Wav.WavFile.WriteFmtChunk | wavfile.cpp:58-65 | appends the 24-byte `fmt ` chunk |
| Wav.WavFile.WriteData | wavfile.cpp:79-82 | `writeData` writes `4*num_samples*num_channels` bytes (in 32 bits) at the cursor and adds the frames to `total_samples` (in 64 bits); a file that is the header and whole frames stays so |
| Wav.WavFile.FinalizeHeader | wavfile.cpp:72-77 | `finalizeHeader` leaves the file as `Finalized` gives it, with the cursor at 44 |
| Audio.MixdownChannels | audio.cpp:10-36 | equal channel counts write nothing and print nothing; mono input is copied to every channel of every output frame and, falling through to the default branch, the error is printed; any other unequal pair prints the error and writes nothing, except multichannel to mono (not modelled); nothing past the frames is written |
| Audio.Spread | audio.cpp:14-19 | the interleaved copy has `channels` entries per input sample |
| Audio.CopyToFrame | audio.cpp:18-19 | the inner loop puts the sample in each channel slot of one output frame and touches nothing else |
| Audio.SpreadAt | audio.cpp:17-19 | channel `k` of output frame `i` is input sample `i` |
| Audio.AudioThread.constructor | audio.cpp:42-43 | the thread starts with no clients and no offsets |
| Audio.AudioThread.ApplyClientList | audio.cpp:80-119 | a client-list message leaves the tables as the two passes give them (`ApplyList`), and the tables stay in agreement |
| Audio.AudioThread.AddIdentity | audio.cpp:93-102 | an unknown identity gets a new socket with write offset 0; a known one changes nothing |
| Audio.AudioThread.RemoveUnlisted | audio.cpp:105-114 | every known client that is not listed is erased from both tables, and everything else stays; this is the evident intent of the loop, which erases while it iterates |
| Audio.GetDeviceId | audio.cpp:417-444 | the first device whose name contains the name ignoring case, or -1 iff there is none; on a second match the loop ends, taking the warning at audio.cpp:435 to print as intended |
| Audio.GetDeviceIdFindsExactName | audio.cpp:428-430 | a name that equals some device's name in any case finds a device at or before it |
| Audio.IsSilenceMeansAllZero | audio.cpp:447-454 | `is_silence` holds iff every sample is zero |
| ClientTables.ClientListEntries | audio.cpp:83-104 | every identity the walk reads is a non-empty string with no NUL in it |
| ClientTables.AddClientsProperties | audio.cpp:86-104 | the first pass keeps the tables in agreement, keeps every known client with its socket and offset, and adds each listed identity with offset 0 |
| ClientTables.AddClientsAgree | audio.cpp:86-104 | the first pass keeps sockets distinct and every socket's offset present |
| ClientTables.AddClientsKeys | audio.cpp:86-104 | after the first pass the known identities are the old ones plus the listed ones |
| ClientTables.AddClientsKeeps | audio.cpp:93-102 | a known client keeps its socket and its offset |
| ClientTables.AddClientsFresh | audio.cpp:98-100 | a new client's offset is 0 |
| ClientTables.InsertClient | audio.cpp:98-100 | giving a new identity the next socket number with offset 0 keeps the tables in agreement and leaves the other offsets alone |
| ClientTables.KeepListedProperties | audio.cpp:105-114 | the second pass keeps the tables in agreement and keeps exactly the listed clients with their sockets and offsets |
| ClientTables.WalkStep | audio.cpp:86-103 | one step of the walk reads the next listed identity and adds it |
| ClientTables.WalkDone | audio.cpp:86 | the walk stops at the empty entry with every listed identity seen and added |
| ClientTables.ClientListOutcome | audio.cpp:80-119 | after a client-list message the known clients are exactly the listed ones; a client that was known keeps its socket and write offset, and a new one starts at offset 0 |
| Broker.Broker.constructor | net.cpp:30-66 | the scratch buffer holds a packet for the widest device (`max_channels * AUDIO_BUFF_LEN`); the client list starts clean and the sweep clock at the current time |
| Broker.MaxChannels | net.cpp:57-59 | the largest device channel count, or 0: no device exceeds it, and it is 0 or one of them |
| Broker.Broker.Connect | net.cpp:142-144 | `connect` adds the address to the outbound set |
| Broker.Broker.Disconnect | net.cpp:146-148 | `disconnect` removes it |
| Broker.Broker.HandleWorld | net.cpp:150-187 | the scratch buffer grows to an audio length that exceeds it; decoded audio is forwarded iff its length is a non-zero multiple of `AUDIO_BUFF_LEN`; only then is the sender timestamped in the inbound map, and the client list marked dirty iff the sender was new |
| Broker.Broker.Sweep | net.cpp:106-115 | after more than 5 s since the last sweep, exactly the clients heard from since that sweep stay and the sweep clock moves to now; otherwise nothing changes |
| Broker.SweptKeeps | net.cpp:109-113 | a sweep keeps exactly the clients heard from at or after the cutoff, with their timestamps, and sweeping again changes nothing |
| Broker.SweptDone | net.cpp:109-113 | a sweep that has passed over every client has left the swept map |
| Broker.Broker.InOrder | net.cpp:121-129 | iterating the inbound `std::map` visits its identities in ascending byte order |
| Broker.SortedKeysEnumerates | net.cpp:121-129 | that order lists each identity once and exactly the map's identities |
| Broker.LexTotal | net.cpp:121-129 | the key order relates every two identities |
| Broker.LexAntisymmetric | net.cpp:121-129 | identities equal as keys are equal |
| Broker.LexTransitive | net.cpp:121-129 | the key order is transitive |
| Broker.LeastExists | net.cpp:121-129 | a non-empty set of identities has a least one |
| Broker.LeastUnique | net.cpp:121-129 | and only one |
| Broker.Broker.Process | net.cpp:106-140 | the sweep as above; a client-list message is sent iff the list was dirty, and it is the corrected `ClientListMessage` of the Findings row for net.cpp:133-136, listing the identities left after the sweep in key order, not the bytes lines 133-136 send; the list is clean afterwards |
| Broker.BuildClientList | net.cpp:119-136 | the corrected builder gives `ClientListMessage` |
| Broker.CopyIdentities | net.cpp:127-132 | the copy loop lays the identities out back to back, each with its NUL, and leaves the buffer's last byte alone |
| Broker.CopyCString | net.cpp:130 | one `memcpy` of an identity and its NUL, touching nothing else |
| Broker.ClientListMessageRoundTrip | net.cpp:119-136 | the audio thread reads back exactly the identities sent, while the message fits its length field |
| Broker.JoinedParses | net.cpp:127-132 | identities laid out with their NULs, then an empty entry, read back as those identities |
| Broker.ClientListAsWritten | net.cpp:119-137 | as written, the final NUL goes to `cl_len - 1` (outside the buffer when `cl_len` is 0) and only `cl_len` bytes are sent, so the message is shorter than the identities with their NULs |
| Broker.ClientListAsWrittenNeverRoundTrips | net.cpp:133-136 | as written, the audio thread never reads back the full list |
| Broker.TwoClients | net.cpp:133-136 | for clients "ab" and "cd", as written the audio thread reads only "ab"; corrected, it reads both |
| Broker.AudioThreadLearnsInbound | net.cpp:117-139 | end to end with the audio thread: applying the broker's corrected message leaves the audio thread knowing exactly the broker's inbound clients |
| Config.StrncpyRoundTrip | c_receiver/config.c:10-12 | a value shorter than the 128-byte buffer is copied with its NUL and reads back as itself |
| Config.StrncpyUnterminated | c_receiver/config.c:10-12 | a value of 128 bytes or more leaves the buffer without a NUL |
| Config.Uint16Setting | c_receiver/config.c:19-24 | a setting is accepted iff `atoi` of it lies in 0..65535, and is then that number |
| Config.Uint16SettingReadsDecimal | c_receiver/config.c:17-25 | every 16-bit value written in decimal is accepted as itself |
| Config.DefaultsParse | c_receiver/config.c:28-32 | the defaults "0", "1554" and "1555" parse as 0, 1554 and 1555 |
| Config.ParseTemp.constructor | c_receiver/config.c:5-6 | the static buffer holds 128 characters |
| Config.ParseTemp.GetenvDefault | c_receiver/config.c:7-15 | the buffer holds the variable's value when it is set and the default otherwise, copied as `strncpy` copies it |
| Config.ParseTemp.ParseUint16 | c_receiver/config.c:17-25 | `parse_uint16` gives the setting `Setting` describes, or `None` where the program exits |
| Config.ReadSettings | c_receiver/config.c:28-32 | the five settings read in order, stopping at the first that makes the program exit |
| Config.ReceiverConfig.LoadConfig | c_receiver/config.c:27-36 | `load_config` succeeds iff every setting is in range, and then stores the five settings and the two addresses made from them |
| Config.ReceiverConfig.Store | c_receiver/config.c:28-35 | the stores leave the settings and the two formatted addresses in the fields |
| Config.LoadSettings | c_receiver/config.c:27-32 | every stored setting is a 16-bit value |
| Config.EmptyEnvironmentDefaults | c_receiver/config.c:28-32 | with nothing set, group, channel and subchannel are 0 and the ports 1554 and 1555 |
| Config.SettingFromEnvironment | c_receiver/config.c:17-25 | a variable set to a 16-bit number in decimal gives that number; one whose value reads as 65536 or more makes the program exit |
| Config.HexIsGroup | c_receiver/config.c:34-35 | `%x` of a 16-bit value is one to four lowercase hex digits, with no colon, that read back as the value |
| Config.AddressesCarrySettings | c_receiver/config.c:34-35 | the group address is "ff12:5041::1337:" then the group in hex; the speaker address is "fd37:5041::" then group, channel and subchannel in hex separated by colons |
| Time.GettimeNs | receiver/time.c:10 | the nanosecond count is a 64-bit value, and equals `sec * 10^9 + nsec` whenever that fits |
| Time.SettimeNs | receiver/time.c:15-16 | the split gives nanoseconds below 10^9 and whole seconds not past the time |
| Time.SplitJoin | receiver/time.c:10-16 | splitting a time and joining it again gives the time back |
| Time.JoinSplit | receiver/time.c:10-16 | joining a normalised timespec that fits 64 bits and splitting the result gives it back |
| Time.JoinWraps | receiver/time.c:10 | past 64 bits the join wraps: 18446744074 s reads as 290448384 ns |
| PartitionInfo.Strip | img_builder/get_partition_info.py:10 | stripping leaves neither end white space |
| PartitionInfo.StripUnchanged | img_builder/get_partition_info.py:10 | a string that starts and ends with something other than white space is left alone |
| PartitionInfo.PyIntReadsNatural | img_builder/get_partition_info.py:10 | `int()` reads back every natural number written in decimal |
| PartitionInfo.PyIntReadsNegative | img_builder/get_partition_info.py:10 | and every negative one written with a minus sign |
| PartitionInfo.PyIntReadsDigits | img_builder/get_partition_info.py:10 | a run of digits reads as its decimal value |
| PartitionInfo.PyIntReadsMinusDigits | img_builder/get_partition_info.py:10 | a minus sign and a run of digits read as the negated value |
| PartitionInfo.PyIntRejectsBlank | img_builder/get_partition_info.py:10 | an empty or all-white-space index is rejected |
| PartitionInfo.PyIntRejectsNonDigit | img_builder/get_partition_info.py:10 | an index with anything but a digit after its first character, once stripped, is rejected |
| PartitionInfo.PyIndex | img_builder/get_partition_info.py:36 | a list subscript succeeds iff `-len <= i < len`, counting from the end for a negative index |
| PartitionInfo.RunChecksInOrder | img_builder/get_partition_info.py:5-27 | the usage, index, image, request and sector-size checks each decide the outcome in the order the script makes them |
| PartitionInfo.RunPrintsOffsetOrSize | img_builder/get_partition_info.py:5-43 | a run prints (and exits 0) iff every check passes and the index selects a partition; it prints that partition's start times 512 or its sector count times 512 |
| PartitionInfo.IndexAtLengthPassesCheck | img_builder/get_partition_info.py:31-36 | an index equal to the number of partitions passes the `>` check and fails at the subscript |
| PartitionInfo.ExampleNegativeIndex | img_builder/get_partition_info.py:36-38 | with one partition over sectors 2048 to 206847, index -1 selects it and its size 104857600 is printed |

## Left out

- Sockets, threads and the event loops are left out: ZeroMQ, UDP and multicast, `zmq_poll`, `create_sock`, `handle_input`, `sendCommand`, `readCommand`, receiver/main.c. They are I/O and concurrency. The handlers the loops call are modelled one call at a time.
- PortAudio and Opus are foreign calls. The device table, the decoded lengths and the stream parameters are inputs, and `decode_frame` is represented by the offset and length it is handed.
- The clock is an input: `time_ms()`, `clock_gettime` and the mixer's `gettime_ns()` readings are parameters. `NextPacket` takes one reading per packet it inspects.
- The shim's mutexes, the semaphore in receiver/utils.c and the signal handlers are left out; the shims are modelled as sequential.
- Floating point is not modelled:
  - the RMS and the taper loops of both shims;
  - `formatSeconds`, `print_level_meter`, `masked_linreg` and `rms`;
  - `seconds_to_samples` and the mix horizon's division by the sample rate;
  - the `var_thresh` and `proportion` products, whose results are parameters.
- `gen_random_addr` depends on `rand()`, and `get_link_local_ip6` on the host's interfaces; both are left out.
- c_shim/bundled/timely_mixer.h is not part of this model: it is not valid C++, and its `queue` and `prune` work on copies.
- The client-identity API that qarb.h declares (`getMaxReadable`, `clearClient`, `write` with a client identity) has no definition; the definitions in qarb.cpp are modelled.
- The parted library is left out: the sector size and partition geometries are inputs, as are whether the image exists and the program's arguments.
- `AUDIO_BUFF_LEN` is commented out in popuset.h, so its value is taken as the 5 ms at 48 kHz (240 samples) that the comment there gives.
- Audio.GetDeviceId: the warning for an ambiguous name (audio.cpp:435) passes the `int` `choice` for a `%s` and the name for a `%d`, which is undefined behaviour and can crash when the first match is not device 0. The model takes it to print and end the loop with the first match chosen.
- Audio.GetDeviceId: a negative `Pa_GetDeviceCount()` (audio.cpp:420-423), which also returns -1, has no counterpart, because the devices are a sequence of names.
- Audio.AudioThread.RemoveUnlisted: erasing from `clientSocks` inside the range-for over it (audio.cpp:106-113) is undefined in C++, even once `kv->first` and `erase(kv)` are read as intended. The model states the evident intent, which is to erase exactly the unlisted clients from both tables.
- Broker.Broker.Sweep: erasing map entries while iterating over the map, as net.cpp:109-113 does, is undefined in C++. The model states the evident intent, which is to erase exactly the clients not heard from since the last sweep.
- Audio.MixdownChannels: averaging several input channels into a mono output works on floats and is excluded by the contract. The copy path and the error print are modelled.
- Qarb.QueueingAdditiveRingBuffer.Read: requires a non-empty ring, because the source takes `% datalen` and a zero length has no defined behaviour. The same holds for `Contiguous` and `Write`.
- PartitionInfo.PyInt: Python's `int()` also accepts underscores between digits and Unicode white space and digits. The model takes only ASCII digits and C white space.
- Config.StrncpyUnterminated: a value of 128 bytes or more leaves `parse_temp` without a NUL, and `atoi` then reads past the buffer. The model reads the 128 bytes as they are.
- Broker.ClientListMessageRoundTrip: holds only for non-empty identities. An empty identity would end the list early.
- Packet.ReceiveAudioPacket: `bytes_read` of -1 (a failed read) is treated as any other non-zero count and is not modelled separately.
- Wav.WavFile.Write: each `write` is taken to write all its bytes; short writes and failed writes are not modelled.
- ShimOld.OldShimState.ProcessCallback: returns the copy plan (`Pick`s) and `write_idx`; the transposing sample copy (popuset_shim_old.cc:103-107) and the zero fill of the rest of the output (line 127) are not modelled as output samples.
- Device.ParseDevice: the name stored in the device, and the name `getDeviceId` looks up, are taken as the strings `new_strdup` was given (popuset.cpp:60 and 62-63). The copies have no NUL (popuset.cpp:23-28), so the device keeps an unterminated name and `getDeviceId` reads its needle past the allocation (audio.cpp:429), which is undefined behaviour. The same holds for `Device.SetIdentity`.
- Device.SetIdentity: the name stored is the plain string rather than `new_strdup`'s unterminated copy, as for `Device.ParseDevice` above.
- Device.ParseDevice: the crash on the NULL device info (popuset.cpp:59 and 66-67) is reported by the `crashed` out-parameter with a null device; that the process then ends is not modelled.
- Wav.WavFile.constructor: models the body after a successful `open`. The failing `open` and the exception are `Wav.OpenWavFile`, where the outcome of `open` is a parameter; the text of the error message is not modelled.
- The millisecond timestamps of net.cpp (`time_ms()` and the `inbound` values and `last_clean`) are `double`s and are modelled as `real`s, without rounding.
- Stats: sums and squared deviations are unbounded integers. The `int64_t` and `uint64_t` overflow of very large inputs is not modelled; only the `int16_t` count of `masked_mean_var` wraps.

## Findings

| source | as written | input that shows it | evidently intended | confidence | as-written member | corrected member |
|---|---|---|---|---|---|---|
| popuset.cpp:61-63 | a device name is looked up with `optarg`, which the in-place cut has reduced to the direction text | "output:Speakers" with one output device "Speakers": the lookup is for "output", finds nothing, and the NULL from `Pa_GetDeviceInfo(-1)` is dereferenced | look up, and store, the name piece `nameid` | not executed | Device.ParseAsWritten, Device.NameLookupUsesDirection | Device.ParseIntended, Device.NameLookupIntended, Device.NameSelectsFirstMatch |
| popuset.cpp:23-28 | `new_strdup` allocates and copies `strlen(input)` characters without the terminating NUL | any string, for example "Speakers": the copy has no NUL, so reading it as a C string runs past the allocation | allocate `len + 1` and copy the NUL too | not executed | Device.NewStrdup, Device.StrdupCopyUnterminated | Device.NewStrdupTerminated, Device.StrdupTerminatedRoundTrip |
| c_receiver/math.hpp:38-46 | `masked_mean_var` divides the sum by `num_accepted` before checking that at least two elements were accepted | a mask of all zeros: division by zero | make the `< 2` check before the division | not executed | Stats.MaskedMeanVarAsWritten, Stats.MaskedMeanVarRejectsAll | Stats.MaskedMeanVarChecked, Stats.MaskedMeanVarIsMeanVarOfAccepted |
| wavfile.cpp:63-64 | byte rate `(samplerate*4*channels)/8` and block align `(channels*4)/8`, dividing a byte count by 8 | 2 channels at 48000 Hz: byte rate 48000 and block align 1 instead of 384000 and 8 | block align `channels * 32 / 8`, byte rate `samplerate * block align` | not executed | Wav.HeaderAsWritten, Wav.WrittenBlockAlignWrong, Wav.StereoHeader | Wav.HeaderIntended, Wav.IntendedHeaderConsistent |
| net.cpp:133-136 | the final NUL goes to `client_list[cl_len - 1]` and only `cl_len` bytes are sent: the identity lengths without their NULs | clients "ab" and "cd": the message is "ab", NUL, NUL, and the audio thread drops "cd"; with no identity characters the write is at index -1 | the NUL in the buffer's last byte, and `cl_len + count + 1` bytes sent | not executed | Broker.ClientListAsWritten, Broker.ClientListAsWrittenNeverRoundTrips, Broker.TwoClients | Broker.ClientListMessage, Broker.ClientListMessageRoundTrip, Broker.AudioThreadLearnsInbound |
| receiver/net.c:73-76 | `channel_idx > channels_in_packet` lets an index equal to the channel count through | one channel whose payload is the bytes 1, 2, read for channel 1: the payload is taken as length 513 and 513 bytes from past the datagram go to the decoder | reject `channel_idx >= channels_in_packet` | not executed | Packet.Parse, Packet.ChannelCountIndexAccepted | Packet.ParseChecked, Packet.ParseCheckedEncoded |
| ringbuffer.cpp:83-97 | `getAmountWritten` and `getAmountRead` return `last - current` modulo `len`, while ringbuffer.h:18-21 promise the amount written or read since the last query | an 8-slot buffer, queried, then written 3 samples: `getAmountWritten` returns 5 | `(current - last) mod len`, which is 3 | not executed | Circular.DeltaAsWrittenCountsBackwards, RingBuffers.WriteThenAskAmount, RingBuffers.ReadThenAskAmount | Circular.OffsetIsMod, Circular.OffsetCountsMoves |
| qarb.cpp:51-57 | `getDelta` returns `last_idx - idx` modulo `datalen`, and audio.cpp:158-162 subtracts it from every client offset as the amount the device read | a ring of 480 slots, queried, then read 100 samples: `getDelta` returns 380, and every client offset is lowered by 380, floored at 0, as the loop at audio.cpp:160-161 evidently intends (it updates by-value copies) | `(idx - last_idx) mod datalen`, which is 100 | not executed | Circular.DeltaAsWrittenCountsBackwards, Qarb.ReadThenAskDelta | Circular.OffsetIsMod, Circular.OffsetCountsMoves |
| c_shim/bundled/popuset_shim_old.cc:95-98 | a buffer that starts after the cursor passes the overlap test, and `buff_offset = (presentation_start + write_idx) - timestamp` wraps in `uint64_t` | a buffer of 10 frames at timestamp 5, `presentation_start` 0, 10 output frames: `buff_offset` is 2^64 - 5 and the copy reads before the channel's data | leave the gap silent and copy from the buffer's first frame at output frame `timestamp - presentation_start` | not executed | ShimOld.GapOffsetWraps | ShimOld.PickIntended, ShimOld.PickIntendedAgrees, ShimOld.GapIntended |
