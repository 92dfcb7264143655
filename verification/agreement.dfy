/**
 When the two batch decoders agree. Each block's filters are in range or not, channel by channel; that pattern decides
 whether the decoders return one sequence, whatever the samples.
 */
module Agreement {
  import opened Naturals
  import opened Wrappers
  import opened Adpcm
  import opened Interleaving
  import opened Decode

  /** Block by block and channel by channel, whether the filter is in range. */
  type Pattern = seq<seq<bool>>

  predicate PatternFor(valid: Pattern, h: Header) {
    |valid| <= h.sampleBlocks && forall b :: 0 <= b < |valid| ==> |valid[b]| == h.channels
  }

  predicate HasPattern(data: seq<byte>, h: Header, valid: Pattern)
    requires h.Valid() && PatternFor(valid, h)
  {
    && Blocks(data, h) == |valid|
    && forall b: nat, ch: nat :: b < |valid| && ch < h.channels ==> ValidBlock(data, h, b, ch) == valid[b][ch]
  }

  function PatternOf(data: seq<byte>, h: Header): (valid: Pattern)
    requires h.Valid()
    ensures PatternFor(valid, h) && HasPattern(data, h, valid)
  {
    seq(Blocks(data, h), b requires 0 <= b < Blocks(data, h) =>
          seq(h.channels, ch requires 0 <= ch < h.channels => ValidBlock(data, h, b, ch)))
  }

  /** Each block before `cut` has its channels all in range or all out of range. */
  predicate EvenTo(valid: Pattern, channels: nat, cut: nat)
    requires 0 < channels && cut <= |valid| && forall b :: 0 <= b < |valid| ==> |valid[b]| == channels
  {
    forall b: nat, ch: nat :: b < cut && ch < channels ==> valid[b][ch] == valid[b][0]
  }

  predicate SilentFrom(valid: Pattern, channels: nat, cut: nat, ch: nat)
    requires ch < channels && forall b :: 0 <= b < |valid| ==> |valid[b]| == channels
  {
    forall b: nat :: cut <= b < |valid| ==> !valid[b][ch]
  }

  predicate SplitsAt(valid: Pattern, channels: nat, cut: nat, ch: nat)
    requires forall b :: 0 <= b < |valid| ==> |valid[b]| == channels
  {
    cut <= |valid| && ch < channels && EvenTo(valid, channels, cut) && SilentFrom(valid, channels, cut, ch)
  }

  /** Up to some block every block is all in range or all out; from there on some one channel is always out. */
  ghost predicate Splits(valid: Pattern, h: Header)
    requires h.Valid() && PatternFor(valid, h)
  {
    exists cut: nat, ch: nat :: SplitsAt(valid, h.channels, cut, ch)
  }

  predicate Agree(data: seq<byte>, h: Header)
    requires h.Valid()
  {
    var rows := ChannelRows(data, h, Blocks(data, h));
    Interleave(rows, MinLength(rows)) == Frames(data, h, 0, Blocks(data, h))
  }

  // ---- even blocks -----------------------------------------------------------------------------------------------

  predicate UniformTo(data: seq<byte>, h: Header, blocks: nat)
    requires h.Valid() && blocks <= Blocks(data, h)
  {
    forall b: nat, ch: nat :: b < blocks && ch < h.channels ==>
                                (ValidBlock(data, h, b, ch) <==> ValidBlock(data, h, b, 0))
  }

  /** In each block the channels' filters are all in range or all out of range. */
  predicate Uniform(data: seq<byte>, h: Header)
    requires h.Valid()
  {
    UniformTo(data, h, Blocks(data, h))
  }

  lemma UniformRows(data: seq<byte>, h: Header, b: nat)
    requires h.Valid() && b < Blocks(data, h) && UniformTo(data, h, b + 1)
    ensures var n := if ValidBlock(data, h, b, 0) then 2 * h.Half() else 0;
            AllLong(BlockRows(data, h, b), n) && MinLength(BlockRows(data, h, b)) == n
  {
  }

  lemma RowsStep(data: seq<byte>, h: Header, b: nat)
    requires h.Valid() && 0 < b <= Blocks(data, h)
    ensures ChannelRows(data, h, b) == Joined(ChannelRows(data, h, b - 1), BlockRows(data, h, b - 1))
    ensures Frames(data, h, 0, b)
            == Frames(data, h, 0, b - 1) + Interleave(BlockRows(data, h, b - 1), MinLength(BlockRows(data, h, b - 1)))
  {
    hide Blocks, ChannelBlock, Interleave, MinLength;
  }

  lemma RowsStart(data: seq<byte>, h: Header)
    requires h.Valid()
    ensures AllLong(ChannelRows(data, h, 0), 0)
    ensures Frames(data, h, 0, 0) == [] && Interleave(ChannelRows(data, h, 0), 0) == []
  {
  }

  /** Through even blocks every channel's row is equally long and interleaves to the blocks' frames in order. */
  lemma {:induction false} UniformPrefix(data: seq<byte>, h: Header, b: nat) returns (n: nat)
    requires h.Valid() && b <= Blocks(data, h) && UniformTo(data, h, b)
    ensures AllLong(ChannelRows(data, h, b), n)
    ensures Interleave(ChannelRows(data, h, b), n) == Frames(data, h, 0, b)
    decreases b
  {
    if b == 0 {
      n := 0;
      RowsStart(data, h);
    } else {
      n := UniformPrefix(data, h, b - 1);
      UniformRows(data, h, b - 1);
      n := UniformStep(data, h, b, n, if ValidBlock(data, h, b - 1, 0) then 2 * h.Half() else 0);
    }
  }

  lemma UniformStep(data: seq<byte>, h: Header, b: nat, n: nat, m: nat) returns (n': nat)
    requires h.Valid() && 0 < b <= Blocks(data, h)
    requires AllLong(ChannelRows(data, h, b - 1), n)
    requires Interleave(ChannelRows(data, h, b - 1), n) == Frames(data, h, 0, b - 1)
    requires AllLong(BlockRows(data, h, b - 1), m) && MinLength(BlockRows(data, h, b - 1)) == m
    ensures AllLong(ChannelRows(data, h, b), n')
    ensures Interleave(ChannelRows(data, h, b), n') == Frames(data, h, 0, b)
  {
    hide Blocks, ChannelRows, BlockRows, Frames, Interleave, Joined, MinLength;
    RowsStep(data, h, b);
    InterleaveJoined(ChannelRows(data, h, b - 1), BlockRows(data, h, b - 1), n, m);
    JoinedLong(ChannelRows(data, h, b - 1), BlockRows(data, h, b - 1), n, m);
    n' := n + m;
  }

  lemma UniformSplits(data: seq<byte>, h: Header)
    requires h.Valid() && Uniform(data, h)
    ensures Splits(PatternOf(data, h), h)
  {
    hide Blocks, ValidBlock;
    assert SplitsAt(PatternOf(data, h), h.channels, |PatternOf(data, h)|, 0);
  }

  /** All filters in range, or a single channel: either makes the blocks uniform, and a uniform pattern splits. */
  lemma UniformWhen(data: seq<byte>, h: Header)
    requires h.Valid()
    requires AllValid(data, h, Blocks(data, h)) || h.channels == 1
    ensures Uniform(data, h) && Splits(PatternOf(data, h), h)
  {
    hide Blocks, ValidBlock, Splits, PatternOf;
    UniformSplits(data, h);
  }

  // ---- a split pattern is enough ---------------------------------------------------------------------------------

  lemma SilentRow(data: seq<byte>, h: Header, ch: nat, b: nat)
    requires h.Valid() && b < Blocks(data, h) && ch < h.channels && !ValidBlock(data, h, b, ch)
    ensures ChannelRow(data, h, ch, b + 1) == ChannelRow(data, h, ch, b)
  {
    hide Blocks, ValidBlock, ChannelBlock;
    assert |ChannelBlock(data, h, ch, b)| == 0;
  }

  /** Where one channel stays out of range there are no frames and its row stops, while the others' rows go on. */
  lemma {:induction false} SilentTail(data: seq<byte>, h: Header, cut: nat, ch: nat, b: nat)
    requires h.Valid() && cut <= b <= Blocks(data, h) && ch < h.channels
    requires forall k: nat :: cut <= k < b ==> !ValidBlock(data, h, k, ch)
    ensures Frames(data, h, 0, b) == Frames(data, h, 0, cut)
    ensures ChannelRow(data, h, ch, b) == ChannelRow(data, h, ch, cut)
    decreases b
  {
    hide Blocks, ValidBlock, ChannelBlock, BlockFrames;
    if b > cut {
      SilentTail(data, h, cut, ch, b - 1);
      NoFrames(data, h, b - 1, ch);
      SilentRow(data, h, ch, b - 1);
    }
  }

  lemma {:induction false} RowsGrow(data: seq<byte>, h: Header, ch: nat, a: nat, b: nat)
    requires h.Valid() && a <= b <= Blocks(data, h) && ch < h.channels
    ensures ChannelRow(data, h, ch, a) <= ChannelRow(data, h, ch, b)
    decreases b
  {
    hide Blocks, ChannelBlock;
    if a < b {
      RowsGrow(data, h, ch, a, b - 1);
    }
  }

  lemma SplitAgrees(data: seq<byte>, h: Header, cut: nat, ch: nat)
    requires h.Valid() && cut <= Blocks(data, h) && ch < h.channels && UniformTo(data, h, cut)
    requires forall b: nat :: cut <= b < Blocks(data, h) ==> !ValidBlock(data, h, b, ch)
    ensures Agree(data, h)
  {
    hide Blocks, ValidBlock, UniformTo, Interleave, Frames, ChannelRow;
    var n := UniformPrefix(data, h, cut);
    SilentTail(data, h, cut, ch, Blocks(data, h));
    var rows, prefixes := ChannelRows(data, h, Blocks(data, h)), ChannelRows(data, h, cut);
    forall c | 0 <= c < |rows|
      ensures prefixes[c] <= rows[c]
    {
      RowsGrow(data, h, c, cut, Blocks(data, h));
    }
    assert |rows[ch]| == n;
    assert MinLength(rows) == n;
    InterleavePrefix(rows, prefixes, n);
  }

  lemma NoSamples(data: seq<byte>, h: Header, b: nat)
    requires h.Valid() && h.Half() == 0 && b < Blocks(data, h)
    ensures AllLong(BlockRows(data, h, b), 0) && MinLength(BlockRows(data, h, b)) == 0 && BlockFrames(data, h, b) == []
  {
    hide Blocks, ValidBlock, ChannelBlock;
  }

  /** Blocks without sample bytes decode to nothing either way. */
  lemma {:induction false} NothingToDecode(data: seq<byte>, h: Header, b: nat)
    requires h.Valid() && h.Half() == 0 && b <= Blocks(data, h)
    ensures AllLong(ChannelRows(data, h, b), 0) && Frames(data, h, 0, b) == []
    decreases b
  {
    hide Blocks, ValidBlock, BlockRows, BlockFrames, ChannelRows, Header.Half;
    if b == 0 {
      RowsStart(data, h);
    } else {
      NothingToDecode(data, h, b - 1);
      NoSamples(data, h, b - 1);
      RowsStep(data, h, b);
      JoinedLong(ChannelRows(data, h, b - 1), BlockRows(data, h, b - 1), 0, 0);
    }
  }

  /** The decoders return one sequence, and in it index `frame * channels + ch` is channel `ch`'s sample `frame`. */
  lemma DecodersAgree(data: seq<byte>, h: Header)
    requires h.Valid() && (h.Half() == 0 || Splits(PatternOf(data, h), h))
    ensures var rows := ChannelRows(data, h, Blocks(data, h));
            var frames := MinLength(rows);
            && Interleave(rows, frames) == Frames(data, h, 0, Blocks(data, h))
            && ByFrames(Frames(data, h, 0, Blocks(data, h)), rows, frames)
            && (Uniform(data, h) ==> AllLong(rows, frames))
  {
    hide Blocks, ChannelRow, UniformTo, Interleave, Frames, ValidBlock;
    var rows := ChannelRows(data, h, Blocks(data, h));
    if h.Half() == 0 {
      NothingToDecode(data, h, Blocks(data, h));
      assert MinLength(rows) == 0;
      NoFramesTaken(rows);
    } else {
      var cut: nat, ch: nat :| SplitsAt(PatternOf(data, h), h.channels, cut, ch);
      PatternIsUniform(data, h, cut, ch);
      SplitAgrees(data, h, cut, ch);
    }
    InterleaveAt(rows, MinLength(rows));
    if Uniform(data, h) {
      var n := UniformPrefix(data, h, Blocks(data, h));
      assert MinLength(rows) == n;
    }
  }

  lemma NoFramesTaken(rows: seq<seq<int>>)
    ensures Interleave(rows, 0) == []
  {
  }

  lemma PatternIsUniform(data: seq<byte>, h: Header, cut: nat, ch: nat)
    requires h.Valid() && SplitsAt(PatternOf(data, h), h.channels, cut, ch)
    ensures cut <= Blocks(data, h) && UniformTo(data, h, cut)
    ensures forall b: nat :: cut <= b < Blocks(data, h) ==> !ValidBlock(data, h, b, ch)
  {
    hide Blocks, ValidBlock, PatternOf;
    var valid := PatternOf(data, h);
    forall b: nat, c: nat | b < cut && c < h.channels
      ensures ValidBlock(data, h, b, c) <==> ValidBlock(data, h, b, 0)
    {
      assert valid[b][c] == valid[b][0];
    }
    forall b: nat | cut <= b < Blocks(data, h)
      ensures !ValidBlock(data, h, b, ch)
    {
      assert !valid[b][ch];
    }
  }

  // ---- and nothing less ------------------------------------------------------------------------------------------

  /** Samples for a pattern: zeros, but for one sounding nibble in channel `c` of block `m`. */
  function LoudByte(valid: Pattern, m: nat, c: nat, b: nat, ch: nat, off: nat): byte {
    if off == 0 then if b < |valid| && ch < |valid[b]| && valid[b][ch] then 0 else 0x50
    else if b == m && ch == c && off == 1 then 1
    else 0
  }

  function LoudData(valid: Pattern, h: Header, m: nat, c: nat): (data: seq<byte>)
    requires h.Valid()
    ensures |data| == |valid| * h.BlockBytes()
  {
    seq(|valid| * h.BlockBytes(), i requires 0 <= i < |valid| * h.BlockBytes() =>
          var inBlock := Remainder(i, h.BlockBytes());
          LoudByte(valid, m, c, Quotient(i, h.BlockBytes()), Quotient(inBlock, h.BytesPerChannel()),
                   Remainder(inBlock, h.BytesPerChannel())))
  }

  lemma LoudAt(valid: Pattern, h: Header, m: nat, c: nat, b: nat, ch: nat, off: nat)
    requires h.Valid() && b < |valid| && ch < h.channels && off < h.BytesPerChannel()
    ensures var i := Join(b, Join(ch, off, h.BytesPerChannel()), h.BlockBytes());
            i < |LoudData(valid, h, m, c)| && LoudData(valid, h, m, c)[i] == LoudByte(valid, m, c, b, ch, off)
  {
    hide Join, Quotient, Remainder, LoudByte, Header.BlockBytes, Header.BytesPerChannel;
    var inBlock := Join(ch, off, h.BytesPerChannel());
    JoinBound(ch, h.channels, off, h.BytesPerChannel());
    BlockBytesIs(h);
    JoinBound(b, |valid|, inBlock, h.BlockBytes());
    JoinParts(b, inBlock, h.BlockBytes());
    JoinParts(ch, off, h.BytesPerChannel());
  }

  lemma BlockBytesIs(h: Header)
    ensures h.channels * h.BytesPerChannel() == h.BlockBytes()
  {
  }

  lemma LoudBlocks(valid: Pattern, h: Header, m: nat, c: nat)
    requires h.Valid() && PatternFor(valid, h)
    ensures Blocks(LoudData(valid, h, m, c), h) == |valid|
  {
    hide Quotient, Header.BlockBytes, LoudData;
    var data := LoudData(valid, h, m, c);
    QuotientBound(|data|, h.BlockBytes(), |valid|);
    if |valid| > 0 {
      QuotientBound(|data|, h.BlockBytes(), |valid| - 1);
      Distribute(|valid|, h.BlockBytes());
    }
  }

  lemma JoinIs(b: nat, block: nat, ch: nat, perChannel: nat, off: nat)
    ensures Join(b, Join(ch, off, perChannel), block) == b * block + ch * perChannel + off
  {
  }

  lemma TakenAt(data: seq<byte>, from: nat, n: nat, off: nat, i: nat)
    requires from + n <= |data| && off < n && i == from + off
    ensures data[from..from + n][off] == data[i]
  {
  }

  lemma SliceAt(data: seq<byte>, h: Header, b: nat, ch: nat, off: nat)
    requires h.Valid() && b < Blocks(data, h) && ch < h.channels && off < h.BytesPerChannel() == 1 + h.Half()
    ensures var i := Join(b, Join(ch, off, h.BytesPerChannel()), h.BlockBytes());
            i < |data| && Slice(data, h, b, ch)[off] == data[i]
  {
    hide Slice, Blocks, Join, Header.BlockBytes, Header.BytesPerChannel, Header.Half;
    SliceIs(data, h, b, ch);
    JoinIs(b, h.BlockBytes(), ch, h.BytesPerChannel(), off);
    TakenAt(data, b * h.BlockBytes() + ch * h.BytesPerChannel(), h.BytesPerChannel(), off,
            Join(b, Join(ch, off, h.BytesPerChannel()), h.BlockBytes()));
  }

  lemma LoudSlice(valid: Pattern, h: Header, m: nat, c: nat, b: nat, ch: nat)
    requires h.Valid() && PatternFor(valid, h) && b < |valid| && ch < h.channels
    ensures var data := LoudData(valid, h, m, c);
            && Blocks(data, h) == |valid|
            && forall off: nat :: off < 1 + h.Half() ==>
                                    Slice(data, h, b, ch)[off] == LoudByte(valid, m, c, b, ch, off)
  {
    hide LoudByte, LoudData, Blocks, Slice, Join, Header.BlockBytes;
    LoudBlocks(valid, h, m, c);
    forall off: nat | off < 1 + h.Half()
      ensures Slice(LoudData(valid, h, m, c), h, b, ch)[off] == LoudByte(valid, m, c, b, ch, off)
    {
      LoudAt(valid, h, m, c, b, ch, off);
      SliceAt(LoudData(valid, h, m, c), h, b, ch, off);
    }
  }

  lemma LoudHasPattern(valid: Pattern, h: Header, m: nat, c: nat)
    requires h.Valid() && PatternFor(valid, h)
    ensures HasPattern(LoudData(valid, h, m, c), h, valid)
  {
    hide LoudData, Blocks, Slice;
    LoudBlocks(valid, h, m, c);
    forall b: nat, ch: nat | b < |valid| && ch < h.channels
      ensures ValidBlock(LoudData(valid, h, m, c), h, b, ch) == valid[b][ch]
    {
      LoudSlice(valid, h, m, c, b, ch);
    }
  }

  /** Every other block's samples are zero, and the loud one's first is not. */
  lemma LoudSamples(valid: Pattern, h: Header, m: nat, c: nat, b: nat, ch: nat)
    requires h.Valid() && PatternFor(valid, h) && b < |valid| && ch < h.channels
    ensures var data := LoudData(valid, h, m, c);
            && Blocks(data, h) == |valid|
            && (b == m && ch == c && valid[b][ch] && h.Half() > 0 ==>
                  ChannelBlock(data, h, ch, b) != [] && ChannelBlock(data, h, ch, b)[0] != 0)
            && (b != m ==> forall x :: x in ChannelBlock(data, h, ch, b) ==> x == 0)
  {
    hide LoudData, Blocks, Slice, History;
    var data := LoudData(valid, h, m, c);
    LoudSlice(valid, h, m, c, b, ch);
    var slice, state := Slice(data, h, b, ch), StateAt(data, h, ch, b);
    if valid[b][ch] {
      if b != m {
        SilentBlock(slice, h.Half(), state);
      } else if ch == c && h.Half() > 0 {
        LoudBlock(slice, h.Half(), state);
      }
    }
  }

  lemma {:induction false} InterleavedZeros(rows: seq<seq<int>>, frames: nat)
    requires forall c :: 0 <= c < |rows| ==> frames <= |rows[c]| && forall x :: x in rows[c] ==> x == 0
    ensures forall x :: x in Interleave(rows, frames) ==> x == 0
    decreases frames
  {
    if frames > 0 {
      InterleavedZeros(rows, frames - 1);
      forall c | 0 <= c < |rows|
        ensures rows[c][frames - 1] == 0
      {
        assert rows[c][frames - 1] in rows[c];
      }
    }
  }

  /** With the loud block mixed, the block-wise decoder hears only silence. */
  lemma {:induction false} LoudFramesAreZero(valid: Pattern, h: Header, m: nat, c: nat, quiet: nat, b: nat)
    requires h.Valid() && PatternFor(valid, h) && m < |valid| && quiet < h.channels && !valid[m][quiet]
    requires b <= |valid|
    ensures var data := LoudData(valid, h, m, c);
            Blocks(data, h) == |valid| && forall x :: x in Frames(data, h, 0, b) ==> x == 0
    decreases b
  {
    hide LoudData, Blocks, ChannelBlock, Interleave, ValidBlock;
    var data := LoudData(valid, h, m, c);
    LoudHasPattern(valid, h, m, c);
    if b > 0 {
      LoudFramesAreZero(valid, h, m, c, quiet, b - 1);
      if b - 1 == m {
        NoFrames(data, h, m, quiet);
      } else {
        var rows := BlockRows(data, h, b - 1);
        forall ch: nat | ch < h.channels
          ensures forall x :: x in rows[ch] ==> x == 0
        {
          LoudSamples(valid, h, m, c, b - 1, ch);
        }
        InterleavedZeros(rows, MinLength(rows));
      }
    }
  }

  /** A row is longer past a valid block than it was before it. */
  lemma RowLongerPast(data: seq<byte>, h: Header, ch: nat, a: nat, b: nat)
    requires h.Valid() && h.Half() > 0 && a <= b < Blocks(data, h) && ch < h.channels && ValidBlock(data, h, b, ch)
    ensures |ChannelRow(data, h, ch, Blocks(data, h))| > |ChannelRow(data, h, ch, a)|
  {
    hide Blocks, ValidBlock, ChannelBlock;
    RowsGrow(data, h, ch, a, b);
    RowsGrow(data, h, ch, b + 1, Blocks(data, h));
    assert ChannelRow(data, h, ch, b + 1) == ChannelRow(data, h, ch, b) + ChannelBlock(data, h, ch, b);
  }

  lemma {:induction false} FirstUneven(valid: Pattern, channels: nat, cut: nat) returns (m: nat)
    requires 0 < channels && cut <= |valid| && forall b :: 0 <= b < |valid| ==> |valid[b]| == channels
    requires !EvenTo(valid, channels, cut)
    ensures m < cut && EvenTo(valid, channels, m) && !EvenTo(valid, channels, m + 1)
    decreases cut
  {
    if EvenTo(valid, channels, cut - 1) {
      m := cut - 1;
    } else {
      m := FirstUneven(valid, channels, cut - 1);
    }
  }

  /** Without a split some samples tell the decoders apart: only the channel-wise one hears the loud nibble. */
  lemma LoudDisagrees(valid: Pattern, h: Header, m: nat, c: nat, quiet: nat)
    requires h.Valid() && h.Half() > 0 && PatternFor(valid, h) && m < |valid| && c < h.channels && quiet < h.channels
    requires EvenTo(valid, h.channels, m) && valid[m][c] && !valid[m][quiet]
    requires forall ch: nat :: ch < h.channels ==> !SilentFrom(valid, h.channels, m, ch)
    ensures !Agree(LoudData(valid, h, m, c), h)
  {
    hide LoudData, Blocks, ValidBlock, ChannelBlock, Interleave, Frames;
    var data := LoudData(valid, h, m, c);
    LoudHasPattern(valid, h, m, c);
    LoudFramesAreZero(valid, h, m, c, quiet, |valid|);
    assert UniformTo(data, h, m) by { EvenIsUniform(data, h, valid, m); }
    var n := UniformPrefix(data, h, m);
    var rows := ChannelRows(data, h, |valid|);
    assert |ChannelRows(data, h, m)[c]| == n;
    forall ch: nat | ch < h.channels
      ensures |rows[ch]| > n
    {
      assert !SilentFrom(valid, h.channels, m, ch);
      var b: nat :| m <= b < |valid| && valid[b][ch];
      assert |ChannelRows(data, h, m)[ch]| == n;
      RowLongerPast(data, h, ch, m, b);
    }
    LoudSamples(valid, h, m, c, m, c);
    RowsGrow(data, h, c, m + 1, |valid|);
    assert ChannelRow(data, h, c, m + 1) == ChannelRow(data, h, c, m) + ChannelBlock(data, h, c, m);
    assert rows[c][n] != 0;
    InterleaveAt(rows, MinLength(rows));
    HeardAt(Interleave(rows, MinLength(rows)), rows, MinLength(rows), n, c);
  }

  lemma EvenIsUniform(data: seq<byte>, h: Header, valid: Pattern, cut: nat)
    requires h.Valid() && PatternFor(valid, h) && HasPattern(data, h, valid)
    requires cut <= |valid| && EvenTo(valid, h.channels, cut)
    ensures UniformTo(data, h, cut)
  {
    hide Blocks, ValidBlock;
  }

  lemma HeardAt(out: seq<int>, rows: seq<seq<int>>, frames: nat, frame: nat, c: nat)
    requires forall k :: 0 <= k < |rows| ==> frames <= |rows[k]|
    requires ByFrames(out, rows, frames) && frame < frames && c < |rows|
    ensures rows[c][frame] in out
  {
    assert out[Join(frame, c, |rows|)] == rows[c][frame];
  }

  /**
   For every choice of samples and in-range filters the decoders return one sequence exactly when the pattern splits, or
   there are no sample bytes at all.
   */
  lemma DecodersAgreeIff(h: Header, valid: Pattern)
    requires h.Valid() && PatternFor(valid, h)
    ensures (forall data: seq<byte> :: HasPattern(data, h, valid) ==> Agree(data, h))
            <==> h.Half() == 0 || Splits(valid, h)
  {
    hide Agree, HasPattern, Splits, LoudData;
    if h.Half() == 0 || Splits(valid, h) {
      forall data: seq<byte> | HasPattern(data, h, valid)
        ensures Agree(data, h)
      {
        PatternUnique(data, h, valid);
        DecodersAgree(data, h);
        AgreeIs(data, h);
      }
    } else {
      var m, c, quiet := UnevenBlock(valid, h);
      LoudHasPattern(valid, h, m, c);
      LoudDisagrees(valid, h, m, c, quiet);
    }
  }

  lemma AgreeIs(data: seq<byte>, h: Header)
    requires h.Valid()
    ensures Agree(data, h)
            <==> var rows := ChannelRows(data, h, Blocks(data, h));
                 Interleave(rows, MinLength(rows)) == Frames(data, h, 0, Blocks(data, h))
  {
    hide Blocks, Interleave, Frames;
  }

  lemma PatternUnique(data: seq<byte>, h: Header, valid: Pattern)
    requires h.Valid() && PatternFor(valid, h) && HasPattern(data, h, valid)
    ensures PatternOf(data, h) == valid
  {
    hide Blocks, ValidBlock;
    var read := PatternOf(data, h);
    forall b: nat | b < |valid|
      ensures read[b] == valid[b]
    {
      assert forall ch: nat :: ch < h.channels ==> read[b][ch] == valid[b][ch];
    }
  }

  lemma UnevenBlock(valid: Pattern, h: Header) returns (m: nat, c: nat, quiet: nat)
    requires h.Valid() && PatternFor(valid, h) && !Splits(valid, h)
    ensures m < |valid| && c < h.channels && quiet < h.channels && EvenTo(valid, h.channels, m)
    ensures valid[m][c] && !valid[m][quiet]
    ensures forall ch: nat :: ch < h.channels ==> !SilentFrom(valid, h.channels, m, ch)
  {
    assert !SplitsAt(valid, h.channels, |valid|, 0);
    m := FirstUneven(valid, h.channels, |valid|);
    var other: nat :| other < h.channels && valid[m][other] != valid[m][0];
    c, quiet := if valid[m][0] then 0 else other, if valid[m][0] then other else 0;
    forall ch: nat | ch < h.channels
      ensures !SilentFrom(valid, h.channels, m, ch)
    {
      assert !SplitsAt(valid, h.channels, m, ch);
    }
  }

  // ---- eight bytes -----------------------------------------------------------------------------------------------

  /**
   Two blocks of two channels, where one channel's filter is out of range in the first block and the other's in the
   second.
   */
  predicate Mixed(data: seq<byte>, h: Header)
    requires h.Valid()
  {
    && h.channels == 2 && Blocks(data, h) == 2 && h.Half() > 0
    && !ValidBlock(data, h, 0, 0) && ValidBlock(data, h, 0, 1)
    && ValidBlock(data, h, 1, 0) && !ValidBlock(data, h, 1, 1)
  }

  /** No such block has frames of its own, yet each channel has a row. */
  lemma MixedBlocksDiffer(data: seq<byte>, h: Header)
    requires h.Valid() && Mixed(data, h)
    ensures var rows := ChannelRows(data, h, 2);
            && Frames(data, h, 0, 2) == []
            && |Interleave(rows, MinLength(rows))| == 4 * h.Half()
  {
    hide Blocks, ValidBlock, ChannelBlock, Interleave;
    NoFrames(data, h, 0, 0);
    NoFrames(data, h, 1, 1);
    assert Frames(data, h, 0, 1) == Frames(data, h, 0, 0) + BlockFrames(data, h, 0);
    var rows := ChannelRows(data, h, 2);
    assert forall ch: nat :: ch < 2 ==> |ChannelRow(data, h, ch, 1)| == |ChannelBlock(data, h, ch, 0)|;
    assert |rows[0]| == 2 * h.Half() && |rows[1]| == 2 * h.Half();
    InterleaveAt(rows, MinLength(rows));
  }

  const MIXED_HEADER := Header(2, 2, 2, 0)
  const MIXED_DATA: seq<byte> := [0x50, 0, 0, 1, 0, 1, 0x50, 0]

  lemma MixedBlocks()
    ensures MIXED_HEADER.Valid() && MIXED_HEADER.Half() == 1 && Blocks(MIXED_DATA, MIXED_HEADER) == 2
  {
    assert MIXED_HEADER.BlockBytes() == 4;
  }

  lemma MixedSlice(b: nat, ch: nat)
    requires MIXED_HEADER.Valid() && b < Blocks(MIXED_DATA, MIXED_HEADER) && b < 2 && ch < 2
    ensures Slice(MIXED_DATA, MIXED_HEADER, b, ch) == MIXED_DATA[4 * b + 2 * ch..4 * b + 2 * ch + 2]
  {
    hide Blocks;
    assert Offset(MIXED_HEADER, b, ch) == 4 * b + 2 * ch;
  }

  lemma MixedPattern()
    ensures MIXED_HEADER.Valid() && Mixed(MIXED_DATA, MIXED_HEADER)
  {
    hide Blocks, Slice;
    MixedBlocks();
    MixedSlice(0, 0);
    MixedSlice(0, 1);
    MixedSlice(1, 0);
    MixedSlice(1, 1);
  }

  /** Eight bytes the decoders disagree on. */
  lemma MixedBlocksExist()
    ensures MIXED_HEADER.Valid() && !Agree(MIXED_DATA, MIXED_HEADER)
  {
    hide Blocks, ValidBlock, Frames, Interleave, ChannelRows, Agree;
    MixedBlocks();
    MixedPattern();
    MixedBlocksDiffer(MIXED_DATA, MIXED_HEADER);
    AgreeIs(MIXED_DATA, MIXED_HEADER);
  }
}
