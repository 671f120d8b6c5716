/** The audio library's block allocator as seen from the USB audio core
    (`AudioStream::allocate`, `release`, `transmit`, `receiveReadOnly`). A block is an
    array of `AUDIO_BLOCK_SAMPLES` samples; the pool records which blocks this core holds
    a reference to, so that releasing a block it does not hold cannot be written. */
module Blocks {
  import opened Words

  type Block = array<int16>

  /** One block handed downstream by `transmit(block, channel)`: its channel and samples. */
  datatype Sent = Sent(channel: nat, samples: seq<int16>)

  class BlockPool {
    /** AUDIO_BLOCK_SAMPLES */
    const blockSamples: nat
    /** The blocks this core currently holds a reference to. */
    ghost var owned: set<Block>
    /** Every block transmitted downstream, in order. */
    ghost var sent: seq<Sent>

    constructor (blockSamples: nat)
      ensures this.blockSamples == blockSamples && owned == {} && sent == []
    {
      this.blockSamples := blockSamples;
      owned := {};
      sent := [];
    }

    /** `AudioStream::allocate()`: a block of unspecified contents, or null when the
        memory pool is exhausted (which this model leaves open). */
    method Allocate() returns (b: array?<int16>)
      modifies this
      ensures sent == old(sent)
      ensures b == null ==> owned == old(owned)
      ensures b != null ==> fresh(b) && b.Length == blockSamples && b !in old(owned) && owned == old(owned) + {b}
    {
      if * {
        b := null;
      } else {
        b := new int16[blockSamples];
        owned := owned + {b};
      }
    }

    /** `AudioStream::release(block)`: drop this core's reference. */
    method Release(b: Block)
      requires b in owned
      modifies this
      ensures owned == old(owned) - {b} && sent == old(sent)
    {
      owned := owned - {b};
    }

    /** `AudioStream::transmit(block, channel)`: hand a block downstream. */
    method Transmit(b: Block, channel: nat)
      requires b in owned
      modifies this
      ensures owned == old(owned) && sent == old(sent) + [Sent(channel, b[..])]
    {
      sent := sent + [Sent(channel, b[..])];
    }

    /** `AudioStream::receiveReadOnly(channel)`: the block the graph delivered on an input
        this period (`input`), or null when it delivered none. */
    method ReceiveReadOnly(input: Option<seq<int16>>) returns (b: array?<int16>)
      requires input.Some? ==> |input.value| == blockSamples
      modifies this
      ensures sent == old(sent)
      ensures input.None? ==> b == null && owned == old(owned)
      ensures input.Some? ==> b != null && fresh(b) && b[..] == input.value && b !in old(owned) && owned == old(owned) + {b}
    {
      if input.None? {
        b := null;
      } else {
        var samples := input.value;
        b := new int16[blockSamples](i requires 0 <= i < blockSamples => samples[i]);
        owned := owned + {b};
      }
    }
  }
}
