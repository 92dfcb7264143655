/**
 The two batch decoders of ADPCM. Both decode every whole block of every channel in turn; one interleaves each block
 as it comes, the other collects each channel's whole row and interleaves at the end.
 */
module Decode {
  import opened Naturals
  import opened Wrappers
  import opened Adpcm
  import opened Interleaving

  datatype Header = Header(channels: nat, blockSize: nat, sampleBlocks: nat, loopStart: int) {
    /** What header validation guarantees, and the widths of the two counters. */
    predicate Valid() {
      && 1 <= channels <= 8 && 1 <= blockSize <= 1024
      && sampleBlocks < 0x1_0000_0000 && FitsI32(loopStart)
    }

    function Half(): nat { blockSize / 2 }

    function BytesPerChannel(): (n: nat)
      ensures n >= 1
    {
      1 + Half()
    }

    function BlockBytes(): (n: nat)
      ensures Valid() ==> n > 0
    {
      BytesPerChannel() * channels
    }
  }

  /** The blocks a decoder gets to: as many as are whole, no more than the header announces. */
  function Blocks(data: seq<byte>, h: Header): nat
    requires h.Valid()
  {
    var whole := Quotient(|data|, h.BlockBytes());
    if whole < h.sampleBlocks then whole else h.sampleBlocks
  }

  /** Block `b` is whole exactly when it is before the number of whole blocks. */
  lemma WholeBlock(data: seq<byte>, h: Header, b: nat)
    requires h.Valid()
    ensures b < Blocks(data, h) <==> b < h.sampleBlocks && b * h.BlockBytes() + h.BlockBytes() <= |data|
  {
    QuotientBound(|data|, h.BlockBytes(), b);
  }

  /** Where channel `ch`'s bytes of block `b` start. */
  function Offset(h: Header, b: nat, ch: nat): nat { b * h.BlockBytes() + ch * h.BytesPerChannel() }

  lemma SliceInBounds(data: seq<byte>, h: Header, b: nat, ch: nat)
    requires h.Valid() && b < Blocks(data, h) && ch < h.channels
    ensures Offset(h, b, ch) + h.BytesPerChannel() <= |data|
  {
    WholeBlock(data, h, b);
    MulMono(ch + 1, h.channels, h.BytesPerChannel());
  }

  function Slice(data: seq<byte>, h: Header, b: nat, ch: nat): (slice: seq<byte>)
    requires h.Valid() && b < Blocks(data, h) && ch < h.channels
    ensures |slice| == 1 + h.Half()
  {
    SliceInBounds(data, h, b, ch);
    data[Offset(h, b, ch)..Offset(h, b, ch) + h.BytesPerChannel()]
  }

  lemma SliceIs(data: seq<byte>, h: Header, b: nat, ch: nat)
    requires h.Valid() && b < Blocks(data, h) && ch < h.channels
    ensures Offset(h, b, ch) + h.BytesPerChannel() <= |data|
    ensures Slice(data, h, b, ch) == data[Offset(h, b, ch)..Offset(h, b, ch) + h.BytesPerChannel()]
  {
    SliceInBounds(data, h, b, ch);
  }

  predicate ValidBlock(data: seq<byte>, h: Header, b: nat, ch: nat)
    requires h.Valid() && b < Blocks(data, h) && ch < h.channels
  {
    ValidFilter(Slice(data, h, b, ch)[0])
  }

  /** Channel `ch` after blocks `0..b`, from silence. */
  function StateAt(data: seq<byte>, h: Header, ch: nat, b: nat): ChannelState
    requires h.Valid() && b <= Blocks(data, h) && ch < h.channels
    decreases b
  {
    if b == 0 then SILENCE else BlockState(Slice(data, h, b - 1, ch), h.Half(), StateAt(data, h, ch, b - 1))
  }

  function StatesAt(data: seq<byte>, h: Header, b: nat): (states: seq<ChannelState>)
    requires h.Valid() && b <= Blocks(data, h)
    ensures |states| == h.channels
  {
    seq(h.channels, ch requires 0 <= ch < h.channels => StateAt(data, h, ch, b))
  }

  lemma {:induction false} StatesStayInRange(data: seq<byte>, h: Header, ch: nat, b: nat)
    requires h.Valid() && b <= Blocks(data, h) && ch < h.channels
    ensures StateAt(data, h, ch, b).InRange()
    decreases b
  {
    if b > 0 {
      StatesStayInRange(data, h, ch, b - 1);
      StateInRange(Slice(data, h, b - 1, ch), h.Half(), StateAt(data, h, ch, b - 1));
    }
  }

  /** What block `b` adds to channel `ch`. */
  function ChannelBlock(data: seq<byte>, h: Header, ch: nat, b: nat): (samples: seq<int>)
    requires h.Valid() && b < Blocks(data, h) && ch < h.channels
    ensures |samples| == if ValidBlock(data, h, b, ch) then 2 * h.Half() else 0
  {
    BlockSamples(Slice(data, h, b, ch), h.Half(), StateAt(data, h, ch, b))
  }

  function BlockRows(data: seq<byte>, h: Header, b: nat): (rows: seq<seq<int>>)
    requires h.Valid() && b < Blocks(data, h)
    ensures |rows| == h.channels
  {
    seq(h.channels, ch requires 0 <= ch < h.channels => ChannelBlock(data, h, ch, b))
  }

  /** The frames block `b` gives: those every channel has. */
  function BlockFrames(data: seq<byte>, h: Header, b: nat): seq<int>
    requires h.Valid() && b < Blocks(data, h)
  {
    Interleave(BlockRows(data, h, b), MinLength(BlockRows(data, h, b)))
  }

  /** The frames of blocks `first..end`, one block after another. */
  function Frames(data: seq<byte>, h: Header, first: nat, end: nat): seq<int>
    requires h.Valid() && first <= end <= Blocks(data, h)
    decreases end
  {
    if first == end then [] else Frames(data, h, first, end - 1) + BlockFrames(data, h, end - 1)
  }

  lemma {:induction false} FramesSplit(data: seq<byte>, h: Header, first: nat, mid: nat, end: nat)
    requires h.Valid() && first <= mid <= end <= Blocks(data, h)
    ensures Frames(data, h, first, end) == Frames(data, h, first, mid) + Frames(data, h, mid, end)
    decreases end
  {
    hide BlockFrames, Blocks;
    if mid < end {
      FramesSplit(data, h, first, mid, end - 1);
    }
  }

  /** One whole block decoded for every channel. */
  method DecodeBlock(data: seq<byte>, h: Header, b: nat, states: seq<ChannelState>)
    returns (result: Result<(), AudioError>, states': seq<ChannelState>, rows: seq<seq<int>>)
    requires h.Valid() && b < Blocks(data, h) && states == StatesAt(data, h, b)
    ensures result == Ok(()) && states' == StatesAt(data, h, b + 1) && rows == BlockRows(data, h, b)
  {
    hide Blocks, BlockSamples, BlockState, Slice, History;
    states' := states;
    rows := [];
    result := Ok(());
    var base := b * h.BlockBytes();
    for ch := 0 to h.channels
      invariant result == Ok(())
      invariant |states'| == h.channels && |rows| == ch
      invariant forall c :: 0 <= c < ch ==>
                  states'[c] == StateAt(data, h, c, b + 1) && rows[c] == ChannelBlock(data, h, c, b)
      invariant forall c :: ch <= c < h.channels ==> states'[c] == StateAt(data, h, c, b)
    {
      SliceInBounds(data, h, b, ch);
      SliceIs(data, h, b, ch);
      var off := base + ch * h.BytesPerChannel();
      var slice := data[off..off + h.BytesPerChannel()];
      var state, samples;
      result, state, samples := DecodeBlockInto(slice, h.blockSize, states'[ch], []);
      if result.Err? {
        return;
      }
      states' := states'[ch := state];
      rows := rows + [samples];
    }
  }

  /** The streaming file's batch decode: every block's own frames, in order. */
  method DecodeInterleaved(data: seq<byte>, h: Header) returns (result: Result<(), AudioError>, out: seq<int>)
    requires h.Valid()
    ensures result == Ok(()) && out == Frames(data, h, 0, Blocks(data, h))
  {
    out := [];
    result := Ok(());
    var states := seq(h.channels, _ => SILENCE);
    for b := 0 to Blocks(data, h)
      invariant result == Ok(())
      invariant states == StatesAt(data, h, b) && out == Frames(data, h, 0, b)
    {
      var rows;
      result, states, rows := DecodeBlock(data, h, b, states);
      if result.Err? {
        return;
      }
      var frames := InterleaveRows(rows);
      out := out + frames;
    }
  }

  /** Channel `ch`'s whole row: its blocks one after another. */
  function ChannelRow(data: seq<byte>, h: Header, ch: nat, b: nat): seq<int>
    requires h.Valid() && b <= Blocks(data, h) && ch < h.channels
    decreases b
  {
    if b == 0 then [] else ChannelRow(data, h, ch, b - 1) + ChannelBlock(data, h, ch, b - 1)
  }

  function ChannelRows(data: seq<byte>, h: Header, b: nat): (rows: seq<seq<int>>)
    requires h.Valid() && b <= Blocks(data, h)
    ensures |rows| == h.channels
  {
    seq(h.channels, ch requires 0 <= ch < h.channels => ChannelRow(data, h, ch, b))
  }

  /** The other files' batch decode: whole channel rows, interleaved as far as the shortest goes. */
  method DecodeChannelMajor(data: seq<byte>, h: Header) returns (result: Result<(), AudioError>, out: seq<int>)
    requires h.Valid()
    ensures result == Ok(())
    ensures var rows := ChannelRows(data, h, Blocks(data, h)); out == Interleave(rows, MinLength(rows))
  {
    out := [];
    result := Ok(());
    var perChannel := seq(h.channels, _ => []);
    var states := seq(h.channels, _ => SILENCE);
    for b := 0 to Blocks(data, h)
      invariant result == Ok(())
      invariant states == StatesAt(data, h, b) && perChannel == ChannelRows(data, h, b)
    {
      var rows;
      result, states, rows := DecodeBlock(data, h, b, states);
      if result.Err? {
        return;
      }
      perChannel := Joined(perChannel, rows);
    }
    out := InterleaveRows(perChannel);
  }

  predicate AllValid(data: seq<byte>, h: Header, blocks: nat)
    requires h.Valid() && blocks <= Blocks(data, h)
  {
    forall b: nat, ch: nat :: b < blocks && ch < h.channels ==> ValidBlock(data, h, b, ch)
  }

  /** A block with a channel out of range has no frames. */
  lemma NoFrames(data: seq<byte>, h: Header, b: nat, ch: nat)
    requires h.Valid() && b < Blocks(data, h) && ch < h.channels && !ValidBlock(data, h, b, ch)
    ensures BlockFrames(data, h, b) == []
  {
    hide Blocks, ValidBlock, ChannelBlock;
    assert |BlockRows(data, h, b)[ch]| == 0;
  }
}
