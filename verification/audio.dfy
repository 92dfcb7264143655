/**
 The dispatch over formats: which decoder a header gets, and the loop point reported beside the samples.
 */
module Audio {
  import opened Wrappers
  import opened Adpcm
  import opened Interleaving
  import opened Decode
  import opened Agreement
  import opened Stream
  import opened Pcm
  import opened AudioHeaders

  datatype DecodedAudio = DecodedAudio(samples: seq<int>, channels: nat, sampleRate: nat, loopStartSample: Option<nat>)

  /** The samples a format's own decoder gives. */
  ghost predicate IsDecoded(h: AudioHeader, data: seq<byte>, samples: seq<int>)
    requires h.blocks.Valid() && !h.format.Atrac3Format?
  {
    if h.format.PcmFormat? then
      var n := PcmBlocks(data, h.blocks); ByFrames(samples, Rows(data, h.blocks, n), n * h.blocks.blockSize)
    else if h.isStreaming then samples == Batch(data, h.blocks)
    else
      var rows := ChannelRows(data, h.blocks, Blocks(data, h.blocks)); samples == Interleave(rows, MinLength(rows))
  }

  /** PCM counts its loop in frames; ADPCM in blocks, scaled by the block size. */
  function LoopPoint(h: AudioHeader): Option<nat> {
    if h.format.PcmFormat? then LoopBlock(h.blocks) else LoopStartSample(h.blocks)
  }

  /** The samples are the format's own, beside the header's channels and rate and the loop point in samples. */
  ghost predicate Describes(audio: DecodedAudio, h: AudioHeader, data: seq<byte>)
    requires h.blocks.Valid() && !h.format.Atrac3Format?
  {
    && IsDecoded(h, data, audio.samples)
    && audio.channels == h.blocks.channels && audio.sampleRate == h.sampleRate && audio.loopStartSample == LoopPoint(h)
  }

  /** A file is refused for its header or for being ATRAC3, and for nothing after that: no block is ever short. */
  method DecodeBytes(bytes: seq<byte>) returns (result: Result<DecodedAudio, DecodeError>)
    ensures var h := ParseAny(bytes);
            if h.Err? then result == Err(h.error)
            else if h.value.format.Atrac3Format? then result == Err(Atrac3Unsupported)
            else result.Ok? && Describes(result.value, h.value, bytes[HEADER_BYTES..])
  {
    hide ParseAny, Describes;
    var h := ParseAny(bytes);
    if h.Err? {
      return Err(h.error);
    }
    result := DecodeData(h.value, bytes[HEADER_BYTES..]);
  }

  method DecodeData(h: AudioHeader, data: seq<byte>) returns (result: Result<DecodedAudio, DecodeError>)
    requires h.blocks.Valid()
    ensures h.format.Atrac3Format? ==> result == Err(Atrac3Unsupported)
    ensures !h.format.Atrac3Format? ==> result.Ok? && Describes(result.value, h, data)
  {
    hide ByFrames, Rows, PcmBlocks, Interleave, ChannelRows, Blocks, Frames, MinLength;
    var samples;
    match h.format {
      case AdpcmFormat =>
        var decoded;
        if h.isStreaming {
          decoded, samples := DecodeInterleaved(data, h.blocks);
        } else {
          decoded, samples := DecodeChannelMajor(data, h.blocks);
        }
        assert decoded.Ok?; // whole blocks are never short
      case PcmFormat => samples := DecodePcm(data, h.blocks);
      case Atrac3Format => return Err(Atrac3Unsupported);
    }
    var loopStartSample := None;
    if h.blocks.loopStart > 0 {
      var zeroIndexed := h.blocks.loopStart - 1;
      loopStartSample := Some(if h.format.PcmFormat? then zeroIndexed
                              else Min(zeroIndexed * h.blocks.blockSize, U32_MAX));
    }
    result := Ok(DecodedAudio(samples, h.blocks.channels, h.sampleRate, loopStartSample));
  }

  /** Where the decoders agree a file sounds the same whichever container it came in. */
  lemma ContainerDoesNotMatter(h: AudioHeader, data: seq<byte>, samples: seq<int>)
    requires h.blocks.Valid() && h.format.AdpcmFormat?
    requires h.blocks.Half() == 0 || Splits(PatternOf(data, h.blocks), h.blocks)
    ensures IsDecoded(h, data, samples) <==> IsDecoded(h.(isStreaming := !h.isStreaming), data, samples)
  {
    hide Blocks, ChannelRows, Splits, Interleave, Frames, MinLength, PatternOf;
    DecodersAgree(data, h.blocks);
  }

  /** The container tells nothing, whatever the samples, exactly when the filter pattern splits or nothing is coded. */
  lemma ContainerDoesNotMatterIff(h: AudioHeader, valid: Pattern)
    requires h.blocks.Valid() && h.format.AdpcmFormat? && PatternFor(valid, h.blocks)
    ensures (forall data: seq<byte>, samples: seq<int> :: HasPattern(data, h.blocks, valid) ==>
               (IsDecoded(h, data, samples) <==> IsDecoded(h.(isStreaming := !h.isStreaming), data, samples)))
            <==> h.blocks.Half() == 0 || Splits(valid, h.blocks)
  {
    hide HasPattern, Splits, Agree, IsDecoded;
    DecodersAgreeIff(h.blocks, valid);
    forall data: seq<byte>
      ensures Agree(data, h.blocks)
              <==> forall samples: seq<int> :: IsDecoded(h, data, samples)
                                               <==> IsDecoded(h.(isStreaming := !h.isStreaming), data, samples)
    {
      AgreeIsSameSamples(h, data);
    }
  }

  lemma AgreeIsSameSamples(h: AudioHeader, data: seq<byte>)
    requires h.blocks.Valid() && h.format.AdpcmFormat?
    ensures Agree(data, h.blocks)
            <==> forall samples: seq<int> :: IsDecoded(h, data, samples)
                                             <==> IsDecoded(h.(isStreaming := !h.isStreaming), data, samples)
  {
    hide Blocks, Interleave, Frames;
    var batch := Batch(data, h.blocks);
    assert IsDecoded(h.(isStreaming := true), data, batch);
    if IsDecoded(h.(isStreaming := false), data, batch) {
      assert Agree(data, h.blocks);
    }
  }

  /**
   A decoded streaming file looped at its loop point goes on as the stream does after a reset, when the loop point is
   exact.
   */
  lemma LoopedFileIsLoopedStream(h: AudioHeader, data: seq<byte>, audio: DecodedAudio, ops: seq<Op>, replay: seq<Op>,
                                 dropped: nat)
    requires h.blocks.Valid() && h.format.AdpcmFormat? && h.isStreaming && Describes(audio, h, data)
    requires AllNext(replay) && |replay| >= Blocks(data, h.blocks) && Run(data, h.blocks, ops, FRESH).looped
    requires LoopBlock(h.blocks).value <= Blocks(data, h.blocks)
    requires LoopPointExact(data, h.blocks, LoopBlock(h.blocks).value)
    requires dropped == audio.loopStartSample.value * audio.channels
    ensures dropped <= |audio.samples|
    ensures audio.samples[dropped..]
            == Played(data, h.blocks, replay, AfterReset(h.blocks, Run(data, h.blocks, ops, FRESH)))
  {
    hide Blocks, Frames, AllValid, Played, Run;
    LoopMechanismsAgree(data, h.blocks, ops, replay, dropped);
  }
}
