/** Audio file headers: two layouts of one record, told apart by their magic, and what validation lets through. */
module AudioHeaders {
  import opened Wrappers
  import opened Adpcm
  import opened Decode

  const HEADER_BYTES: nat := 48
  const SPW_MAGIC: seq<byte> := [0x53, 0x65, 0x57, 0x61, 0x76, 0x65]
  const BGW_MAGIC: seq<byte> := [0x42, 0x47, 0x4D, 0x53, 0x74, 0x72, 0x65, 0x61]

  datatype SampleFormat = AdpcmFormat | PcmFormat | Atrac3Format

  datatype AudioHeader = AudioHeader(format: SampleFormat, isStreaming: bool, sampleRate: nat, blocks: Header)

  datatype DecodeError =
    | HeaderTooShort(need: nat, have: nat)
    | UnknownMagic(tag: seq<byte>)
    | UnknownFormat(value: nat)
    | InvalidChannels(channels: nat)
    | InvalidBlockSize(size: nat)
    | Atrac3Unsupported
    | Decoding(error: AudioError)

  function U32At(bytes: seq<byte>, at: nat): (value: nat)
    requires at + 4 <= |bytes|
    ensures value < 0x1_0000_0000
  {
    U32Le(bytes[at..at + 4])
  }

  function I32At(bytes: seq<byte>, at: nat): (value: int)
    requires at + 4 <= |bytes|
    ensures FitsI32(value)
  {
    var raw := U32At(bytes, at);
    if raw < 0x8000_0000 then raw else raw - 0x1_0000_0000
  }

  /** Two words added with wrap-around, the top bit dropped. */
  function SampleRate(high: nat, low: nat): nat { (high + low) % 0x1_0000_0000 % 0x8000_0000 }

  function FormatOf(value: nat): Result<SampleFormat, DecodeError> {
    if value == 0 then Ok(AdpcmFormat)
    else if value == 1 then Ok(PcmFormat)
    else if value == 3 then Ok(Atrac3Format)
    else Err(UnknownFormat(value))
  }

  /** The record of either layout, its counters at `at` and its channel count and block size at `shape`. */
  function ParseRecord(bytes: seq<byte>, at: nat, shape: nat, isStreaming: bool): (h: Result<AudioHeader, DecodeError>)
    requires HEADER_BYTES <= |bytes| && at + 16 <= HEADER_BYTES && shape + 2 <= HEADER_BYTES
    ensures h.Ok? ==> h.value.blocks.Valid()
  {
    match FormatOf(U32At(bytes, 0x0C))
    case Err(error) => Err(error)
    case Ok(format) =>
      var channels, blockSize := bytes[shape], bytes[shape + 1];
      if channels == 0 || channels > 8 then Err(InvalidChannels(channels))
      else if blockSize == 0 then Err(InvalidBlockSize(blockSize))
      else
        Ok(AudioHeader(format, isStreaming, SampleRate(U32At(bytes, at + 8), U32At(bytes, at + 12)),
                       Header(channels, blockSize, U32At(bytes, at), I32At(bytes, at + 4))))
  }

  function ParseAny(bytes: seq<byte>): (h: Result<AudioHeader, DecodeError>)
    ensures h.Ok? ==> |bytes| >= HEADER_BYTES && h.value.blocks.Valid()
    ensures h.Err? ==> !h.error.Atrac3Unsupported? && !h.error.Decoding?
  {
    if |bytes| < HEADER_BYTES then Err(HeaderTooShort(HEADER_BYTES, |bytes|))
    else if bytes[..6] == SPW_MAGIC then ParseRecord(bytes, 0x14, 0x2A, false)
    else if bytes[..8] == BGW_MAGIC then ParseRecord(bytes, 0x18, 0x2E, true)
    else Err(UnknownMagic(bytes[..8]))
  }

  // ---- byte by byte ----------------------------------------------------------------------------------------------

  function Bytes4(b0: nat, b1: nat, b2: nat, b3: nat): nat { b0 + 256 * b1 + 65536 * b2 + 16777216 * b3 }

  lemma U32ByBytes(bytes: seq<byte>, at: nat)
    requires at + 4 <= |bytes|
    ensures U32At(bytes, at) == Bytes4(bytes[at], bytes[at + 1], bytes[at + 2], bytes[at + 3])
  {
  }

  /** A signed word: its top byte's top bit is its sign. */
  lemma I32ByBytes(bytes: seq<byte>, at: nat)
    requires at + 4 <= |bytes|
    ensures I32At(bytes, at) == Bytes4(bytes[at], bytes[at + 1], bytes[at + 2], bytes[at + 3])
                                - if bytes[at + 3] < 128 then 0 else 4294967296
  {
    U32ByBytes(bytes, at);
  }

  /**
   What a record says, its counters' bytes from `c` on and its shape's from `s` on: blocks, loop start and the two words
   of the rate one after another, channels and block size side by side, the format at 12.
   */
  predicate Says(bytes: seq<byte>, c: nat, s: nat, h: Result<AudioHeader, DecodeError>, streaming: bool)
    requires |bytes| >= 48 && c + 16 <= 48 && s + 2 <= 48
  {
    var format := Bytes4(bytes[12], bytes[13], bytes[14], bytes[15]);
    if format != 0 && format != 1 && format != 3 then h == Err(UnknownFormat(format))
    else if bytes[s] < 1 || bytes[s] > 8 then h == Err(InvalidChannels(bytes[s]))
    else if bytes[s + 1] < 1 then h == Err(InvalidBlockSize(bytes[s + 1]))
    else
      && h.Ok? && h.value.isStreaming == streaming
      && (format == 0 ==> h.value.format == AdpcmFormat)
      && (format == 1 ==> h.value.format == PcmFormat)
      && (format == 3 ==> h.value.format == Atrac3Format)
      && h.value.blocks.channels == bytes[s] && h.value.blocks.blockSize == bytes[s + 1]
      && h.value.blocks.sampleBlocks == Bytes4(bytes[c], bytes[c + 1], bytes[c + 2], bytes[c + 3])
      && h.value.blocks.loopStart == Bytes4(bytes[c + 4], bytes[c + 5], bytes[c + 6], bytes[c + 7])
                                     - (if bytes[c + 7] < 128 then 0 else 4294967296)
      && h.value.sampleRate == (Bytes4(bytes[c + 8], bytes[c + 9], bytes[c + 10], bytes[c + 11])
                                + Bytes4(bytes[c + 12], bytes[c + 13], bytes[c + 14], bytes[c + 15])) % 2147483648
  }

  lemma RateSays(high: nat, low: nat)
    ensures SampleRate(high, low) == (high + low) % 2147483648
  {
    var sum := high + low;
    var r := sum % 0x1_0000_0000;
    LowBits(sum, 2 * (sum / 0x1_0000_0000) + r / 0x8000_0000, r % 0x8000_0000);
  }

  lemma LowBits(sum: nat, k: nat, low: nat)
    requires sum == 2147483648 * k + low && low < 2147483648
    ensures sum % 2147483648 == low
  {
  }

  lemma RecordSays(bytes: seq<byte>, c: nat, s: nat, streaming: bool)
    requires |bytes| >= 48 && c + 16 <= 48 && s + 2 <= 48
    ensures Says(bytes, c, s, ParseRecord(bytes, c, s, streaming), streaming)
  {
    hide U32At, I32At, Bytes4, SampleRate;
    U32ByBytes(bytes, 12);
    U32ByBytes(bytes, c);
    I32ByBytes(bytes, c + 4);
    U32ByBytes(bytes, c + 8);
    U32ByBytes(bytes, c + 12);
    RateSays(U32At(bytes, c + 8), U32At(bytes, c + 12));
  }

  /**
   A file of 48 bytes or more that opens with `SeWave` is one of plain samples, its counters at 20 and its shape at 42;
   one that opens with `BGMStrea` streams, its counters at 24 and its shape at 46; any other is refused by its tag.
   */
  lemma ParsedByBytes(bytes: seq<byte>)
    ensures |bytes| < 48 ==> ParseAny(bytes) == Err(HeaderTooShort(48, |bytes|))
    ensures |bytes| >= 48 && bytes[..6] == [83, 101, 87, 97, 118, 101] ==> Says(bytes, 20, 42, ParseAny(bytes), false)
    ensures |bytes| >= 48 && bytes[..8] == [66, 71, 77, 83, 116, 114, 101, 97] ==>
              Says(bytes, 24, 46, ParseAny(bytes), true)
    ensures |bytes| >= 48 ==>
              || bytes[..6] == [83, 101, 87, 97, 118, 101]
              || bytes[..8] == [66, 71, 77, 83, 116, 114, 101, 97]
              || ParseAny(bytes) == Err(UnknownMagic(bytes[..8]))
  {
    hide ParseRecord, Says;
    if |bytes| >= 48 {
      RecordSays(bytes, 20, 42, false);
      RecordSays(bytes, 24, 46, true);
      if bytes[..8] == BGW_MAGIC {
        assert bytes[..6][0] == bytes[..8][0];
      }
    }
  }
}
