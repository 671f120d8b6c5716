/** The globals of teensy4/usb_audio.cpp that neither audio class owns, and the entry
    points that reach across both halves: `usb_audio_configure`, `sync_event` and the
    feedback line of `tx_event`. */
module UsbAudio {
  import opened Words
  import Feedback
  import Pacing
  import opened AudioInput
  import opened AudioOutput
  import opened DoubleBuffer
  import opened Packetizer

  class UsbAudio {
    const input: AudioInputUSB
    const output: AudioOutputUSB
    var syncNbytes: nat
    var syncRshift: nat
    /** `usb_audio_sync_feedback`: the value the sync endpoint sends. */
    var syncFeedback: uint32

    /** Both halves are well formed and keep their blocks apart. */
    ghost predicate Valid()
      reads input, output, input.pool, output.pool, output.outgoing, output.ready
    {
      input.Valid() && output.Valid() && input.pool != output.pool
    }

    /** Static initialization of both halves and of the globals. The sync value lives in
        DMAMEM, which startup does not clear, so it is left unconstrained here. */
    constructor (blockSamples: nat, maxVolume: nat, txSize: nat)
      requires 45 <= blockSamples < 0x1_0000 && blockSamples % 2 == 0 && txSize >= 8 * 45
      ensures Valid() && fresh(input) && fresh(output)
      ensures input.n == blockSamples && output.n == blockSamples && input.maxVolume == maxVolume
    {
      input := new AudioInputUSB(blockSamples, maxVolume);
      output := new AudioOutputUSB(blockSamples, txSize);
      syncNbytes, syncRshift := 0, 0;
    }

    /** The feedback line of `sync_event` (teensy4/usb_audio.cpp:86). */
    method SyncEvent()
      modifies this`syncFeedback
      ensures syncFeedback == Feedback.Value(input.feedbackAccumulator, syncRshift)
    {
      syncFeedback := Feedback.Value(input.feedbackAccumulator, syncRshift);
    }

    /** `tx_event` (teensy4/usb_audio.cpp:299-302): build the next packet, then refresh
        the feedback value from the accumulator. */
    method TxEvent() returns (bytes: nat)
      requires Valid()
      modifies output`accumulator, output`packetCount, output`offset1st, output.outgoing, output.ready,
               output.pool, output.transmitBuffer, this`syncFeedback
      ensures Valid() && output.leaked == old(output.leaked) && output.pool.sent == old(output.pool.sent)
      ensures output.accumulator == Pacing.AdapterNext(old(output.accumulator), old(output.subtract))
      ensures output.packetCount == Pacing.NextCount(old(output.packetCount))
      ensures var target := Pacing.CycleTarget(old(output.packetCount));
              var q := old(output.TxState());
              && QueueWf(q, output.n)
              && bytes == 16 * target
              && output.TxState() == Advance(q, Drained(q, output.n, target), output.n)
              && output.transmitBuffer[..] == PacketImage(old(output.transmitBuffer[..]), q, output.n, target)
      ensures syncFeedback == Feedback.Value(input.feedbackAccumulator, syncRshift)
    {
      bytes := output.TransmitCallback();
      SyncEvent();
    }

    /** The feedback transfer format for the bus speed (teensy4/usb_audio.cpp:98-104). */
    method SetFormat(highSpeed: bool)
      modifies this`syncNbytes, this`syncRshift
      ensures Feedback.SyncFormat(syncNbytes, syncRshift) == Feedback.Format(highSpeed)
    {
      var format := Feedback.Format(highSpeed);
      syncNbytes := format.nbytes;
      syncRshift := format.rshift;
    }

    /** The state-reset and feedback parts of `usb_audio_configure`
        (teensy4/usb_audio.cpp:92-114): counters cleared, the accumulator seeded, the
        feedback format chosen by bus speed, then the first sync value and the first
        transmit packet prepared as `sync_event(NULL)` and `tx_event(NULL)` do. */
    method Configure(highSpeed: bool) returns (bytes: nat)
      requires Valid()
      modifies this`syncNbytes, this`syncRshift, this`syncFeedback,
               input`underrunCount, input`overrunCount, input`feedbackAccumulator,
               output`accumulator, output`packetCount, output`offset1st, output.outgoing, output.ready,
               output.pool, output.transmitBuffer
      ensures Valid()
      ensures input.underrunCount == 0 && input.overrunCount == 0 && input.feedbackAccumulator == Feedback.Seed
      ensures Feedback.SyncFormat(syncNbytes, syncRshift) == Feedback.Format(highSpeed)
      ensures syncFeedback == Feedback.Value(Feedback.Seed, syncRshift)
      ensures output.leaked == old(output.leaked) && output.pool.sent == old(output.pool.sent)
      ensures output.accumulator == Pacing.AdapterNext(old(output.accumulator), old(output.subtract))
      ensures output.packetCount == Pacing.NextCount(old(output.packetCount))
      ensures var target := Pacing.CycleTarget(old(output.packetCount));
              var q := old(output.TxState());
              && QueueWf(q, output.n)
              && bytes == 16 * target
              && output.TxState() == Advance(q, Drained(q, output.n, target), output.n)
              && output.transmitBuffer[..] == PacketImage(old(output.transmitBuffer[..]), q, output.n, target)
    {
      Reset(highSpeed);
      bytes := TxEvent();
    }

    /** Lines 95-111 of `usb_audio_configure`: everything before `tx_event(NULL)`. */
    method Reset(highSpeed: bool)
      requires Valid()
      modifies this`syncNbytes, this`syncRshift, this`syncFeedback,
               input`underrunCount, input`overrunCount, input`feedbackAccumulator
      ensures Valid()
      ensures input.underrunCount == 0 && input.overrunCount == 0 && input.feedbackAccumulator == Feedback.Seed
      ensures Feedback.SyncFormat(syncNbytes, syncRshift) == Feedback.Format(highSpeed)
      ensures syncFeedback == Feedback.Value(Feedback.Seed, syncRshift)
    {
      input.Configure();
      SetFormat(highSpeed);
      SyncEvent();
    }
  }
}
