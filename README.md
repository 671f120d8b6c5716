# Teensy 4 USB audio core, modelled in Dafny

This project models the streaming core of the Teensy 4 USB audio device,
`teensy4/usb_audio.cpp`. It covers both directions of the stream and the control
surface beside them:

- **Receive.** `usb_audio_receive_callback` takes interleaved 16-bit stereo words from
  an isochronous OUT packet. It splits them with `copy_to_buffers` into a left and a
  right block of `AUDIO_BLOCK_SAMPLES` samples. A full pair is published into a
  one-slot mailbox (`ready_left`/`ready_right`). `AudioInputUSB::update` drains the
  mailbox into the audio graph, counts underruns and moves the feedback accumulator.
- **Feedback.** `feedback_accumulator` holds samples per 1 ms frame scaled by 2^24.
  `sync_event` and `tx_event` send it shifted right by a bus-speed-dependent amount,
  as the explicit feedback value of section 5.12.4.2 of the USB 2.0 Specification.
- **Transmit.** `AudioOutputUSB::update` takes one block per channel (eight channels)
  per graph tick. Missing channels get silence, and the set goes into a two-deep
  double buffer (`outgoing[]`, `ready[]`). `usb_audio_transmit_callback` picks the
  packet's sample count and interleaves that many frames into
  `usb_audio_transmit_buffer` with `copy_from_buffers`. It releases drained blocks and
  promotes `ready` to `outgoing`.
- **Control.** `usb_audio_get_feature` and `usb_audio_set_feature` implement the
  Feature Unit mute and volume requests of section 5.2.2.4 of the USB Device Class
  Definition for Audio Devices 1.0. `usb_audio_configure` resets the counters and
  picks the feedback format.

## Structure

**Pure modules** describe the core on abstract values:

| module | what it describes |
|---|---|
| `Words` | 8, 16 and 32-bit integers, half-word packing, two's complement, 32-bit wrap-around |
| `Reassembly` | `Deliver`: what the receive loop does to the in-progress pair, the mailbox and the overrun counter for a run of samples |
| `DoubleBuffer` | the transmit queue as channel sets: the frames still pending, `Enqueue`, `Advance`, and the wire image of frames |
| `Packetizer` | the transmit buffer one callback leaves, `PacketImage` |
| `Pacing` | the 44/45 packet-size cycle and the overridden accumulator rate adapter |
| `Feedback` | the feedback accumulator step and the sent value |
| `FeatureUnit` | the get/set feature requests on the `features` struct |

**Imperative modules** follow the source's own state. Each class method is proved
against the pure model:

| module | what it holds |
|---|---|
| `Copying` | the two copy loops over arrays |
| `Blocks` | the audio library's block allocator, with a ghost record of the blocks this core holds and of those sent downstream |
| `Slots` | ownership facts about rows of block pointers |
| `AudioInput.AudioInputUSB` | the receive statics, with `features`, `feedback_accumulator` and the counters |
| `AudioOutput.AudioOutputUSB` | the transmit statics, the packet counter and the transmit buffer |
| `UsbAudio.UsbAudio` | both classes plus the sync globals, with `usb_audio_configure`, `sync_event` and `tx_event` |

Each entry point is one atomic step. The interrupt-disabled sections in the source
exist to give exactly that atomicity.

**Block ownership is part of every class invariant.** Every block the pool counts as
held sits in exactly one pointer slot. The only exception is a block `begin` dropped
while still holding it, which is tracked as leaked.

Every entry point keeps that invariant, so a block is never released twice nor held
in two slots. Each entry point states what it released and what it sent downstream.

### Behaviour reproduced as written

The model keeps these behaviours as the code has them, and lemmas show each one:

- **The packet size comes from the fixed cycle alone.** It is nine packets of 44
  samples, then one of 45. The accumulator adapter still runs first on every call,
  but its choice is overwritten (`Pacing`, `TransmitCallback`).
- **The underrun `memset` zeroes the wrong range.** It starts at 16-bit position `len`
  and runs for `8 * (target - len)` values. After a partial packet of `len` frames it
  overwrites frames just copied, and it leaves the tail up to `8 * target` unfilled
  (`LateUnderrunOverwritesFrames`).
- **Some lost samples are not counted as overruns.** A stalled in-progress pair that
  is already full drops the next arrival without incrementing the overrun counter, so
  the counter depends on how the data was chunked (`DeliverInChunks`,
  `StalledArrivalUncounted`).
- **Only the low byte of a set volume is kept.** A volume `SET_CUR` stores the first
  data byte alone (`VolumeRoundTrip`).
- **A mute read ignores the request code.** It answers any request code with the mute
  byte (`MuteIgnoresRequestCode`).

## Model

| member | source | states |
|---|---|---|
| Words.Pack | teensy4/usb_audio.cpp:144-146 | the 32-bit word built from two 16-bit halves has exactly those halves, low first |
| Words.PackOfHalves | teensy4/usb_audio.cpp:142-146 | splitting a word into halves and packing them again gives the word back |
| Words.SignedOfBits | teensy4/usb_audio.cpp:328-331 | the 16-bit pattern of an `int16_t`, read back as `int16_t`, is the sample |
| Words.BitsOfSigned | teensy4/usb_audio.cpp:136-138 | reading a 16-bit pattern as `int16_t` and taking its pattern again is the identity |
| Words.Inc32 | teensy4/usb_audio.cpp:198 | a `uint32_t` counter increment always changes the counter, and adds one below the wrap point |
| Reassembly.Deliver | teensy4/usb_audio.cpp:184-231 | the receive loop keeps the receive side well formed, never touches an occupied mailbox, and leaves both in-progress blocks allocated when allocation succeeds |
| Reassembly.StalledMailbox | teensy4/usb_audio.cpp:186-203 | with the mailbox occupied, the pair is filled at most to capacity, the rest is dropped, and the overrun counter moves (by one) exactly when samples were dropped from a pair that still had room |
| Reassembly.Publication | teensy4/usb_audio.cpp:204-225 | with the mailbox free, the first `n` samples of held plus new samples are published; then the in-progress pair is gone (allocation failed) or holds the next samples up to capacity, with one overrun when more were left |
| Reassembly.DeliverInChunks | teensy4/usb_audio.cpp:184-231 | delivering a packet in two pieces leaves the same in-progress samples and mailbox as delivering it at once; the overrun counts agree except after a stalled pair was filled exactly, when the second arrival goes uncounted |
| Reassembly.StalledArrivalUncounted | teensy4/usb_audio.cpp:226-227 | a concrete input where two arrivals count no overrun while the same samples in one arrival count one |
| DoubleBuffer.Frames | teensy4/usb_audio.cpp:489 | a run of frames has one frame per sample index, each with one sample per channel |
| DoubleBuffer.Wire | teensy4/usb_audio.cpp:328-331 | the wire image of frames has eight 16-bit values per frame |
| DoubleBuffer.WireAt | teensy4/usb_audio.cpp:328-331 | sample `c` of frame `k` lands at 16-bit position `8k + c`, as its 16-bit pattern |
| DoubleBuffer.WirePrefix | teensy4/usb_audio.cpp:489 | the wire image of the first `k` frames is the first `8k` values of the whole image |
| DoubleBuffer.WireAppend | teensy4/usb_audio.cpp:489-491 | the image of consecutive runs of frames is the concatenation of their images |
| DoubleBuffer.Pending | teensy4/usb_audio.cpp:290-292 | the frames still to be sent are the unread rest of `outgoing` then all of `ready`, eight samples each |
| DoubleBuffer.EnqueuePending | teensy4/usb_audio.cpp:388-413 | enqueueing keeps the double buffer well formed; with `ready` free the new set is queued behind everything pending; with both slots full the unread rest of `outgoing` is dropped and the set queued behind `ready` |
| DoubleBuffer.Advance | teensy4/usb_audio.cpp:491-506 | draining at most a block keeps the double buffer well formed |
| DoubleBuffer.AdvancePending | teensy4/usb_audio.cpp:491-506 | draining `k` frames removes exactly the first `k` pending frames, in order |
| DoubleBuffer.PendingPrefix | teensy4/usb_audio.cpp:474-477 | while the read stays inside `outgoing`, the next `k` pending frames are frames `offset_1st` onwards of `outgoing` |
| DoubleBuffer.AdvanceTwice | teensy4/usb_audio.cpp:464-507 | two drain steps of the transmit loop equal one drain by their sum |
| Copying.CopyToBuffers | teensy4/usb_audio.cpp:132-155 | the left block receives the low halves and the right block the high halves of the source words, in order, at the given offset, and nothing else in either block changes, whatever the alignment path taken |
| Copying.MoveWord | teensy4/usb_audio.cpp:136-138 | one word split into the next left and right sample |
| Copying.CopyPairs | teensy4/usb_audio.cpp:141-148 | the two-words-per-store loop stops with at most two words left and has copied every word so far into the right place |
| Copying.SpliceHalves | teensy4/usb_audio.cpp:132-155 | what the three loops leave is the block with the copied range replaced by the split samples |
| Copying.CopyFromBuffers | teensy4/usb_audio.cpp:324-334 | the eight channels' frames from `offset` go to the buffer as their wire image at 16-bit position `8*at`, and nothing else in the buffer changes |
| Copying.NextFrame | teensy4/usb_audio.cpp:327-333 | one pass of the loop appends one frame's image after those already written |
| Copying.PutFrame | teensy4/usb_audio.cpp:328-331 | the four 32-bit stores put the frame's eight 16-bit patterns, channel 0 first, and touch nothing else |
| Copying.FramesSnoc | teensy4/usb_audio.cpp:327-333 | one more frame appends that frame's image |
| Feedback.ValueFits | teensy4/usb_audio.cpp:98-104 | the sent feedback value fits the transfer size at either speed: 3 bytes at full speed, 4 at high speed |
| Feedback.SeedIsNominalRate | teensy4/usb_audio.cpp:97 | the seed 739875226 is 44.1 * 2^24 to the nearest integer |
| Feedback.StepDelta | teensy4/usb_audio.cpp:248-262 | one update moves the accumulator, modulo 2^32, by the fill error plus the underrun bias when a pair was missing, and only when data arrived |
| Feedback.StepDirection | teensy4/usb_audio.cpp:248-250 | away from wrap-around, a fill level below half a block raises the feedback, one above lowers it, and exactly half leaves it |
| Feedback.Add32Twice | teensy4/usb_audio.cpp:250-261 | two wrapping 32-bit additions equal one addition of the sum |
| Pacing.CycleSumClosedForm | teensy4/usb_audio.cpp:457-462 | `k` packets carry `44k` samples plus one for each time the counter wraps, and the counter ends at `(count + k) mod 10` |
| Pacing.CycleRate | teensy4/usb_audio.cpp:457-462 | over any window of packets the cycle emits 44.1 samples per packet to within one sample |
| Pacing.TenPacketCycle | teensy4/usb_audio.cpp:457-462 | every ten packets carry exactly 441 samples and restore the counter |
| Pacing.AdapterBounded | teensy4/usb_audio.cpp:450-455 | the adapter keeps its accumulator in (0, 1000] when it drains by less than 1000 per call |
| Pacing.AdapterExact | teensy4/usb_audio.cpp:450-455 | over `k` calls the adapter adds `k * subtract / 1000` extra samples to within one, the remainder carried in the accumulator |
| FeatureUnit.GetFeature | teensy4/usb_audio.cpp:539-574 | a GET is answered exactly for the class-interface request type with the mute selector (any request code) or the volume selector with GET_CUR..GET_RES; mute answers its byte, volume the little-endian current, 0, the maximum's low byte or 1 |
| FeatureUnit.LowBytes | teensy4/usb_audio.cpp:550-551 | the two reply bytes of a volume GET_CUR read back, little-endian, as the volume's low 16 bits |
| FeatureUnit.SetFeature | teensy4/usb_audio.cpp:576-596 | a SET_CUR of mute or volume stores the first data byte and raises `change`; any other request changes nothing |
| FeatureUnit.VolumeRoundTrip | teensy4/usb_audio.cpp:549-589 | after a volume SET_CUR with byte `b`, GET_CUR reads `[b, 0]` |
| FeatureUnit.MuteRoundTrip | teensy4/usb_audio.cpp:543-582 | after a mute SET_CUR with byte `b`, a mute GET reads `[b]` |
| FeatureUnit.MuteIgnoresRequestCode | teensy4/usb_audio.cpp:542-547 | the mute control is answered for any request code |
| FeatureUnit.InitialVolume | teensy4/usb_audio.cpp:46 | the initial volume reads back as half the maximum |
| Blocks.BlockPool.Allocate | teensy4/usb_audio.cpp:175 | an allocation yields null and changes nothing, or a fresh block of `AUDIO_BLOCK_SAMPLES` samples that this core now holds |
| Blocks.BlockPool.Release | teensy4/usb_audio.cpp:265 | releasing needs a held block and drops exactly that one |
| Blocks.BlockPool.Transmit | teensy4/usb_audio.cpp:264 | transmitting records the block's channel and samples downstream and keeps it held |
| Blocks.BlockPool.ReceiveReadOnly | teensy4/usb_audio.cpp:349 | a delivered input becomes a fresh held block with exactly its samples; no input gives null |
| Packetizer.Drained | teensy4/usb_audio.cpp:464-477 | a packet takes its target or everything pending, whichever is less |
| Packetizer.Zeroed | teensy4/usb_audio.cpp:470 | the `memset` zeroes exactly the given range and keeps the rest |
| Packetizer.WrittenGrow | teensy4/usb_audio.cpp:489-491 | copying the next frames behind those already written extends the written image of the packet |
| Packetizer.FullPacket | teensy4/usb_audio.cpp:464-507 | with enough pending, the packet is the image of the next `target` frames in order and the rest of the buffer is untouched |
| Packetizer.EmptyQueueSendsSilence | teensy4/usb_audio.cpp:467-472 | with nothing queued the packet is `8 * target` zeros and nothing after them changes |
| Packetizer.LateUnderrunOverwritesFrames | teensy4/usb_audio.cpp:470 | after `k` frames and an underrun, zeros cover `[k, 8*target - 7k)`, over frames just copied, and the rest up to `8*target` keeps copied data or old contents |
| AudioInput.AudioInputUSB.constructor | teensy4/usb_audio.cpp:38-46 | static initialization: no blocks, empty mailbox, zero counters, features `{0, 0, FEATURE_MAX_VOLUME/2}` |
| AudioInput.AudioInputUSB.RxStateWf | teensy4/usb_audio.cpp:39-44 | the receive statics satisfy the reassembler's invariants and `incoming_count` is the in-progress fill |
| AudioInput.AudioInputUSB.Begin | teensy4/usb_audio.cpp:116-130 | all receive pointers null, count and flag cleared; blocks still held become leaked |
| AudioInput.AudioInputUSB.Update | teensy4/usb_audio.cpp:235-271 | the mailbox is emptied and its pair sent on channels 0 and 1, the flag cleared, the accumulator moved by `Feedback.Step`, and a missing pair counted as an underrun |
| AudioInput.AudioInputUSB.UpdateFeedback | teensy4/usb_audio.cpp:244-262 | the flag is taken and cleared, the accumulator follows `Feedback.Step`, the underrun counter rises exactly when a pair was missing |
| AudioInput.AudioInputUSB.TakeReady | teensy4/usb_audio.cpp:239-243 | the ready pair is taken and its pointers cleared, then sent downstream and released |
| AudioInput.AudioInputUSB.SendPair | teensy4/usb_audio.cpp:263-270 | each present block is transmitted on its channel and released |
| AudioInput.AudioInputUSB.Configure | teensy4/usb_audio.cpp:95-97 | both counters zero and the accumulator seeded, the blocks untouched |
| AudioInput.AudioInputUSB.SetFeature | teensy4/usb_audio.cpp:576-596 | the request is handled exactly when `FeatureUnit.SetHandled` says so, and the features follow `FeatureUnit.SetFeature` |
| AudioInput.AudioInputUSB.ReceiveCallback | teensy4/usb_audio.cpp:161-232 | the flag is raised; when both in-progress blocks can be had the receive side follows `Reassembly.Deliver` on the packet's `len/4` words, otherwise it is unchanged up to a fresh empty left block |
| AudioInput.AudioInputUSB.DeliverWords | teensy4/usb_audio.cpp:184-231 | the receive loop ends as `Reassembly.Deliver` describes |
| AudioInput.AudioInputUSB.SetCount | teensy4/usb_audio.cpp:231 | the fill level reached is stored |
| AudioInput.AudioInputUSB.ReceiveStep | teensy4/usb_audio.cpp:185-229 | one pass of the receive loop is one unfolding of `Reassembly.Deliver` |
| AudioInput.AudioInputUSB.Accept | teensy4/usb_audio.cpp:186-189 | samples that fit are appended to the in-progress pair |
| AudioInput.AudioInputUSB.Overrun | teensy4/usb_audio.cpp:194-202 | with the mailbox occupied the pair is filled to capacity and an overrun counted when samples remain |
| AudioInput.AudioInputUSB.Send | teensy4/usb_audio.cpp:190-225 | with the mailbox free the pair is filled and published, then continues with fresh blocks or stops without any |
| AudioInput.AudioInputUSB.PrimeBlocks | teensy4/usb_audio.cpp:171-183 | missing in-progress blocks are allocated, a left one kept even when the right allocation fails |
| AudioInput.AudioInputUSB.PrimeLeft | teensy4/usb_audio.cpp:174-178 | the left block exists afterwards exactly when the call succeeds, fresh and empty if it was allocated |
| AudioInput.AudioInputUSB.PrimeRight | teensy4/usb_audio.cpp:179-183 | the same for the right block |
| AudioInput.AudioInputUSB.Fill | teensy4/usb_audio.cpp:187 | both in-progress blocks grow by the copied samples |
| AudioInput.AudioInputUSB.Publish | teensy4/usb_audio.cpp:204-225 | the full pair becomes the ready pair; two fresh blocks follow, or (a lone fresh left block released) none and a zero count |
| AudioOutput.Silenced | teensy4/usb_audio.cpp:374-384 | the queued set has one block of `n` samples per channel |
| AudioOutput.Silence | teensy4/usb_audio.cpp:380 | the block is all zeros |
| AudioOutput.RowCarries | teensy4/usb_audio.cpp:386 | a full row of the blocks `update` holds reads as the set it queues |
| AudioOutput.AudioOutputUSB.constructor | teensy4/usb_audio.cpp:289-296 | static initialization: every transmit pointer null, nothing queued |
| AudioOutput.AudioOutputUSB.Begin | teensy4/usb_audio.cpp:309-322 | every transmit pointer null, `normal_target` 48, `accumulator` 500, `subtract` 0; blocks still held become leaked |
| AudioOutput.AudioOutputUSB.Update | teensy4/usb_audio.cpp:341-423 | not transmitting: every block released and the queue emptied; transmitting: the silenced set enqueued as `Enqueue` says when every allocation succeeded (always when all channels delivered), otherwise everything obtained released and the queue unchanged |
| AudioOutput.AudioOutputUSB.Gather | teensy4/usb_audio.cpp:348-349 | each channel holds its delivered block, or null |
| AudioOutput.AudioOutputUSB.Dump | teensy4/usb_audio.cpp:351-370 | every received, outgoing and ready block released, the queue empty and the offset zero |
| AudioOutput.AudioOutputUSB.ReleaseColumn | teensy4/usb_audio.cpp:353-367 | channel `i`'s three blocks released and its two slots cleared |
| AudioOutput.AudioOutputUSB.FillSilence | teensy4/usb_audio.cpp:374-384 | missing channels get silent blocks until an allocation fails; complete exactly when every channel has a block |
| AudioOutput.AudioOutputUSB.Discard | teensy4/usb_audio.cpp:415-421 | every block obtained is released, the queue untouched |
| AudioOutput.AudioOutputUSB.Queue | teensy4/usb_audio.cpp:386-414 | the set is enqueued as `Enqueue` says, releasing the unread outgoing row on overrun |
| AudioOutput.AudioOutputUSB.QueueFirst | teensy4/usb_audio.cpp:390-395 | the set becomes `outgoing`, read from 0 |
| AudioOutput.AudioOutputUSB.QueueNext | teensy4/usb_audio.cpp:396-400 | the set becomes `ready` |
| AudioOutput.AudioOutputUSB.QueueOverrun | teensy4/usb_audio.cpp:401-412 | `ready` moves to `outgoing`, the set becomes `ready`, the old outgoing row is released and the offset reset |
| AudioOutput.AudioOutputUSB.ShiftColumn | teensy4/usb_audio.cpp:404-410 | channel `i`: outgoing takes ready, ready takes the new block, the old outgoing block is released |
| AudioOutput.AudioOutputUSB.TxStateWf | teensy4/usb_audio.cpp:290-292 | the transmit statics form a well-formed double buffer whose outgoing set is the blocks' contents |
| AudioOutput.AudioOutputUSB.TransmitCallback | teensy4/usb_audio.cpp:445-509 | the adapter and counter step, `target * 16` bytes are returned, the queue advances by the frames drained, and the buffer holds `PacketImage` |
| AudioOutput.AudioOutputUSB.Underrun | teensy4/usb_audio.cpp:467-473 | the queue ran dry after `len` frames and the buffer holds the packet image with the underrun fill |
| AudioOutput.AudioOutputUSB.Pace | teensy4/usb_audio.cpp:447-462 | the target is the cycle's; the adapter and the counter step |
| AudioOutput.AudioOutputUSB.ZeroFill | teensy4/usb_audio.cpp:470 | `8 * num` zeros from 16-bit position `len`, the rest unchanged |
| AudioOutput.AudioOutputUSB.DrainStep | teensy4/usb_audio.cpp:466-506 | one pass takes at least one more pending frame, within the target, writes its image and advances the queue by it |
| AudioOutput.AudioOutputUSB.CopyFrames | teensy4/usb_audio.cpp:489 | the next `num` pending frames are written after the `len` already there |
| AudioOutput.AudioOutputUSB.AdvanceBy | teensy4/usb_audio.cpp:491-506 | after `num` more frames the double buffer is the original queue advanced by all frames the packet has taken |
| AudioOutput.AudioOutputUSB.Promote | teensy4/usb_audio.cpp:493-501 | the outgoing row released, `ready` promoted, `ready` emptied, offset zero |
| UsbAudio.UsbAudio.constructor | teensy4/usb_audio.cpp:57-67 | both halves freshly built and well formed, with the block size and volume ceiling given; the DMAMEM sync value is not constrained |
| UsbAudio.UsbAudio.SyncEvent | teensy4/usb_audio.cpp:86 | the sync value is the accumulator shifted by `usb_audio_sync_rshift` |
| UsbAudio.UsbAudio.TxEvent | teensy4/usb_audio.cpp:299-302 | the transmit queue advances past the frames drained, the buffer holds that packet image, the pacing accumulator and packet counter step, `16 * target` bytes are returned, and the sync value is refreshed from the receive accumulator |
| UsbAudio.UsbAudio.SetFormat | teensy4/usb_audio.cpp:98-104 | 4 bytes shifted by 8 at high speed, 3 bytes shifted by 10 at full speed |
| UsbAudio.UsbAudio.Reset | teensy4/usb_audio.cpp:95-110 | counters zero, accumulator seeded, format by bus speed, sync value computed from the seed |
| UsbAudio.UsbAudio.Configure | teensy4/usb_audio.cpp:92-114 | counters zero, accumulator seeded, format by bus speed, sync value from the seed; then the first transmit packet exactly as `TxEvent` states it: queue advanced, buffer image, pacing step, `16 * target` bytes |

## Left out

- USB transfer plumbing is not modelled: `usb_prepare_transfer`, `usb_receive`,
  `usb_transmit`, `usb_config_*_iso`, the `memset`s of the transfer descriptors, and
  the cache maintenance (`arm_dcache_*`). `rx_event`'s computation of the received
  length from the transfer status is left out too; `ReceiveCallback` takes the length
  and the packet's words as parameters.
- Interrupts and concurrency are not modelled. Each entry point is one atomic step,
  which is what the `__disable_irq` sections provide. Interleavings inside a callback
  are left out.
- `printf` and the diagnostic prints are left out.
- `interleave_from_blocks` is compiled out (`#if 0`) and is not modelled.
- `update_responsibility` is only ever set to false and is never read in this file, so
  it is not modelled.
- `AudioStream::allocate`, `release`, `transmit` and `receiveReadOnly` live in the
  audio library, which is not part of this model. They are modelled as a pool per
  audio class that records held blocks and sent blocks. Allocation may fail at any
  call, and memory is never reused.
- `usb_audio.h` and `usb_desc.h` are not part of this model. `AUDIO_BLOCK_SAMPLES` is
  a parameter `n` (even, at least 45, below 2^16), `FEATURE_MAX_VOLUME` a parameter,
  and the transmit buffer holds at least 45 frames of eight 16-bit values.
- The `setup_struct` union is modelled as an 8-byte sequence with the selector in
  byte 3. Only the fields the two feature handlers read are used.
- `usb_high_speed` and `usb_audio_transmit_setting` are written outside this file.
  They are parameters of `Configure`/`SetFormat` and `AudioOutputUSB.Update`.
- AudioOutput.AudioOutputUSB.Update: returns whether the set was queued, which the
  source does not return; the blocks' contents while queued are stated through
  `TxState`, not slot by slot.
- AudioOutput.AudioOutputUSB.TransmitCallback: the adapter's `int` accumulator is
  modelled unbounded. `Pacing.AdapterBounded` shows it stays in (0, 1000] for the
  preset values, so no overflow arises.
- UsbAudio.UsbAudio.Configure: the `rx_event(NULL)` call only re-arms the receive
  transfer and is left out with the transfer plumbing.
- The alignment test `(uintptr_t) left & 0x02` in `copy_to_buffers` is modelled as
  the parity of the sample index, on the assumption that block data is 4-byte aligned.
- Pointer aliasing between statics is expressed only through `modifies` frames and
  the ownership invariant; raw pointer arithmetic becomes array indices.
