/**
 The resumable decoder with its loop snapshot, and the loop point a batch decode reports instead.

 The stream is a state machine over two facts, the block it stands at and whether it has taken its snapshot; the
 channel states are always the fold of the block decoder over the blocks before it. Everything a run plays follows.
 */
module Stream {
  import opened Naturals
  import opened Wrappers
  import opened Adpcm
  import opened Interleaving
  import opened Decode

  const U32_MAX: nat := 0xFFFF_FFFF

  /** The block a loop returns to. */
  function LoopBlock(h: Header): Option<nat> { if h.loopStart > 0 then Some(h.loopStart - 1) else None }

  /** Where a stream stands. */
  datatype Play = Play(block: nat, looped: bool) {
    predicate InRange(data: seq<byte>, h: Header)
      requires h.Valid()
    {
      block <= Blocks(data, h) && (looped ==> LoopBlock(h).Some? && LoopBlock(h).value <= Blocks(data, h))
    }
  }

  const FRESH := Play(0, false)

  function AfterNext(data: seq<byte>, h: Header, p: Play): Play
    requires h.Valid()
  {
    Play(if p.block < Blocks(data, h) then p.block + 1 else p.block,
         p.looped || (p.block < h.sampleBlocks && LoopBlock(h) == Some(p.block)))
  }

  function Emitted(data: seq<byte>, h: Header, p: Play): seq<int>
    requires h.Valid()
  {
    if p.block < Blocks(data, h) then BlockFrames(data, h, p.block) else []
  }

  function AfterReset(h: Header, p: Play): Play
    requires p.looped ==> LoopBlock(h).Some?
  {
    Play(if p.looped then LoopBlock(h).value else 0, p.looped)
  }

  class AdpcmStream {
    const data: seq<byte>
    const header: Header
    var states: seq<ChannelState>
    var loopSnapshot: Option<seq<ChannelState>>
    var currentBlock: nat

    /** What the stream stands for. */
    function Standing(): Play
      reads this
    {
      Play(currentBlock, loopSnapshot.Some?)
    }

    /** The channel states are the fold over the blocks before this one, and the snapshot the fold to the loop. */
    predicate Valid()
      reads this
    {
      && header.Valid()
      && Standing().InRange(data, header)
      && states == StatesAt(data, header, currentBlock)
      && (loopSnapshot.Some? ==> loopSnapshot.value == StatesAt(data, header, LoopBlock(header).value))
    }

    constructor (data: seq<byte>, header: Header)
      requires header.Valid()
      ensures Valid() && Standing() == FRESH
      ensures this.data == data && this.header == header
    {
      this.data, this.header := data, header;
      states := seq(header.channels, _ => SILENCE);
      loopSnapshot := None;
      currentBlock := 0;
    }

    method NextBlockInterleaved() returns (result: Result<bool, AudioError>, out: seq<int>)
      requires Valid()
      modifies this
      ensures Valid()
      ensures Standing() == AfterNext(data, header, old(Standing()))
      ensures result == Ok(old(currentBlock) < Blocks(data, header))
      ensures out == Emitted(data, header, old(Standing()))
    {
      hide Blocks, StatesAt, BlockRows, Interleave;
      WholeBlock(data, header, currentBlock);
      out := [];
      if currentBlock >= header.sampleBlocks {
        return Ok(false), out;
      }
      if header.loopStart > 0 && currentBlock == header.loopStart - 1 {
        loopSnapshot := Some(states);
      }
      var base := currentBlock * header.BlockBytes();
      if base + header.BlockBytes() > |data| {
        return Ok(false), out;
      }
      var decoded, states', rows := DecodeBlock(data, header, currentBlock, states);
      assert decoded.Ok?; // a block sliced to its own size is never short
      states := states';
      out := InterleaveRows(rows);
      currentBlock := currentBlock + 1;
      return Ok(true), out;
    }

    method ResetLoop()
      requires Valid()
      modifies this
      ensures Valid()
      ensures Standing() == AfterReset(header, old(Standing()))
    {
      if loopSnapshot.Some? {
        states := loopSnapshot.value;
        currentBlock := header.loopStart - 1;
      } else {
        states := seq(header.channels, _ => SILENCE);
        currentBlock := 0;
      }
    }
  }

  // ---- every run --------------------------------------------------------------------------------------------------

  datatype Op = Next | Reset

  predicate KeepsLoop(h: Header, p: Play) { p.looped ==> LoopBlock(h).Some? }

  function Step(data: seq<byte>, h: Header, op: Op, p: Play): (p': Play)
    requires h.Valid() && KeepsLoop(h, p)
    ensures KeepsLoop(h, p')
  {
    if op.Next? then AfterNext(data, h, p) else AfterReset(h, p)
  }

  function Run(data: seq<byte>, h: Header, ops: seq<Op>, p: Play): (p': Play)
    requires h.Valid() && KeepsLoop(h, p)
    ensures KeepsLoop(h, p')
    decreases |ops|
  {
    if ops == [] then p else Run(data, h, ops[1..], Step(data, h, ops[0], p))
  }

  /** Everything a run plays. */
  function Played(data: seq<byte>, h: Header, ops: seq<Op>, p: Play): seq<int>
    requires h.Valid() && KeepsLoop(h, p)
    decreases |ops|
  {
    if ops == [] then []
    else (if ops[0].Next? then Emitted(data, h, p) else []) + Played(data, h, ops[1..], Step(data, h, ops[0], p))
  }

  /** In every run from a fresh stream the position stays in range: nothing is read past the last whole block. */
  lemma {:induction false} RunStaysInRange(data: seq<byte>, h: Header, ops: seq<Op>, p: Play)
    requires h.Valid() && p.InRange(data, h)
    ensures Run(data, h, ops, p).InRange(data, h)
    decreases |ops|
  {
    if ops != [] {
      WholeBlock(data, h, p.block);
      RunStaysInRange(data, h, ops[1..], Step(data, h, ops[0], p));
    }
  }

  predicate AllNext(ops: seq<Op>) { forall k :: 0 <= k < |ops| ==> ops[k].Next? }

  function Min(a: nat, b: nat): nat { if a < b then a else b }

  /** Blocks asked for in a row play the frames of just those blocks, one after another, until there are no more. */
  lemma {:induction false} BlocksInARow(data: seq<byte>, h: Header, ops: seq<Op>, p: Play)
    requires h.Valid() && p.InRange(data, h) && AllNext(ops)
    ensures var end := Min(p.block + |ops|, Blocks(data, h));
            && Run(data, h, ops, p).block == end
            && Played(data, h, ops, p) == Frames(data, h, p.block, end)
    decreases |ops|
  {
    hide BlockFrames, Blocks;
    if ops != [] {
      var p' := Step(data, h, ops[0], p);
      RunStaysInRange(data, h, ops[..1], p);
      assert Run(data, h, ops[..1], p) == p' by { assert ops[..1][1..] == []; }
      BlocksInARow(data, h, ops[1..], p');
      if p.block < Blocks(data, h) {
        var end := Min(p.block + |ops|, Blocks(data, h));
        FramesSplit(data, h, p.block, p.block + 1, end);
        assert Frames(data, h, p.block, p.block + 1)
               == Frames(data, h, p.block, p.block) + BlockFrames(data, h, p.block);
      }
    }
  }

  /** A fresh stream played out is the batch decode. */
  lemma FreshRunIsBatch(data: seq<byte>, h: Header, ops: seq<Op>)
    requires h.Valid() && AllNext(ops) && |ops| >= Blocks(data, h)
    ensures Played(data, h, ops, FRESH) == Frames(data, h, 0, Blocks(data, h))
  {
    BlocksInARow(data, h, ops, FRESH);
  }

  /**
   After any run whatever, a reset replays the batch decode's suffix from the loop block if the snapshot was taken,
   and all of it otherwise.
   */
  lemma ReplayIsSuffix(data: seq<byte>, h: Header, ops: seq<Op>, replay: seq<Op>)
    requires h.Valid() && AllNext(replay) && |replay| >= Blocks(data, h)
    ensures var stopped := Run(data, h, ops, FRESH);
            var back := AfterReset(h, stopped);
            && back.block <= Blocks(data, h)
            && (back.block == if stopped.looped then LoopBlock(h).value else 0)
            && Played(data, h, replay, back) == Frames(data, h, back.block, Blocks(data, h))
            && Frames(data, h, 0, Blocks(data, h)) == Frames(data, h, 0, back.block) + Played(data, h, replay, back)
  {
    RunStaysInRange(data, h, ops, FRESH);
    var back := AfterReset(h, Run(data, h, ops, FRESH));
    BlocksInARow(data, h, replay, back);
    FramesSplit(data, h, 0, back.block, Blocks(data, h));
  }

  /** A stream played past its end has taken its snapshot exactly when the loop block is one it stood at. */
  lemma {:induction false} SnapshotWhen(data: seq<byte>, h: Header, ops: seq<Op>, p: Play)
    requires h.Valid() && p.InRange(data, h) && AllNext(ops)
    ensures Run(data, h, ops, p).looped
            <==> p.looped
                 || (LoopBlock(h).Some? && LoopBlock(h).value < h.sampleBlocks && LoopBlock(h).value <= Blocks(data, h)
                     && p.block <= LoopBlock(h).value < p.block + |ops|)
    decreases |ops|
  {
    hide Blocks;
    if ops != [] {
      RunStaysInRange(data, h, ops[..1], p);
      assert Run(data, h, ops[..1], p) == Step(data, h, ops[0], p) by { assert ops[..1][1..] == []; }
      SnapshotWhen(data, h, ops[1..], Step(data, h, ops[0], p));
    }
  }

  // ---- the loop point of a batch decode ---------------------------------------------------------------------------

  /** The frame a batch decode of ADPCM names as its loop point, counted in header block sizes and saturating. */
  function LoopStartSample(h: Header): Option<nat> {
    match LoopBlock(h)
    case None => None
    case Some(block) => Some(Min(block * h.blockSize, U32_MAX))
  }

  /** The loop point by the header's own numbers, saturating at 32 bits. */
  lemma LoopPointIs(h: Header)
    ensures h.loopStart <= 0 ==> LoopStartSample(h) == None
    ensures h.loopStart > 0 ==>
              var frames: nat := (h.loopStart - 1) * h.blockSize;
              LoopStartSample(h) == Some(if frames < 4294967295 then frames else 4294967295)
  {
  }

  lemma BlockFramesLength(data: seq<byte>, h: Header, b: nat)
    requires h.Valid() && b < Blocks(data, h)
    ensures |BlockFrames(data, h, b)|
            == if forall ch: nat :: ch < h.channels ==> ValidBlock(data, h, b, ch) then 2 * h.Half() * h.channels else 0
  {
    hide Blocks, ValidBlock, ChannelBlock;
    var rows := BlockRows(data, h, b);
    InterleaveAt(rows, MinLength(rows));
    var c: nat :| c < |rows| && MinLength(rows) == |rows[c]|;
    if ch: nat :| ch < h.channels && !ValidBlock(data, h, b, ch) {
      assert |rows[ch]| == 0;
    }
  }

  /** The frames before a block fill whole decoded blocks exactly when every filter before it is in range. */
  lemma {:induction false} FramesLength(data: seq<byte>, h: Header, b: nat)
    requires h.Valid() && b <= Blocks(data, h)
    ensures var full := 2 * h.Half() * h.channels;
            && |Frames(data, h, 0, b)| <= b * full
            && (full > 0 ==> (|Frames(data, h, 0, b)| == b * full <==> AllValid(data, h, b)))
    decreases b
  {
    hide Blocks, ValidBlock, BlockFrames;
    if b > 0 {
      var full := 2 * h.Half() * h.channels;
      FramesLength(data, h, b - 1);
      BlockFramesLength(data, h, b - 1);
      Distribute(b, full);
    }
  }

  predicate LoopPointExact(data: seq<byte>, h: Header, block: nat)
    requires h.Valid() && block <= Blocks(data, h)
  {
    block == 0 || (block * h.blockSize <= U32_MAX && h.blockSize % 2 == 0 && AllValid(data, h, block))
  }

  /** The frames before a block come in whole decoded blocks. */
  lemma {:induction false} FramesInWholeBlocks(data: seq<byte>, h: Header, b: nat) returns (whole: nat)
    requires h.Valid() && b <= Blocks(data, h)
    ensures |Frames(data, h, 0, b)| == whole * (2 * h.Half() * h.channels)
    decreases b
  {
    hide Blocks, ValidBlock, BlockFrames;
    whole := 0;
    if b > 0 {
      whole := FramesInWholeBlocks(data, h, b - 1);
      BlockFramesLength(data, h, b - 1);
      if |BlockFrames(data, h, b - 1)| > 0 {
        Distribute(whole + 1, 2 * h.Half() * h.channels);
        whole := whole + 1;
      }
    }
  }

  /** A saturated loop point is odd, and decoded blocks are not. */
  lemma SaturatedIsInexact(whole: nat, half: nat, channels: nat)
    requires channels >= 1
    ensures U32_MAX * channels != whole * (2 * half * channels)
  {
    var even := 2 * (whole * half);
    assert whole * (2 * half * channels) == even * channels;
    if even < U32_MAX {
      MulMono(even + 1, U32_MAX, channels);
    } else {
      MulMono(U32_MAX + 1, even, channels);
    }
  }

  /**
   The batch decode's loop point is where the stream's loop block starts exactly when the loop is at the very start,
   or the count does not saturate, the block size is even and every filter before the loop is in range.
   */
  lemma LoopPointExactWhen(data: seq<byte>, h: Header)
    requires h.Valid() && LoopBlock(h).Some? && LoopBlock(h).value <= Blocks(data, h)
    ensures LoopStartSample(h).value * h.channels == |Frames(data, h, 0, LoopBlock(h).value)|
            <==> LoopPointExact(data, h, LoopBlock(h).value)
  {
    hide Blocks, Frames, AllValid;
    var block := LoopBlock(h).value;
    FramesLength(data, h, block);
    LoopNumbers(block, h.blockSize, h.Half(), h.channels, |Frames(data, h, 0, block)|, AllValid(data, h, block));
    var whole := FramesInWholeBlocks(data, h, block);
    SaturatedIsInexact(whole, h.Half(), h.channels);
    if block == 0 {
      FramesStart(data, h);
    }
  }

  lemma FramesStart(data: seq<byte>, h: Header)
    requires h.Valid()
    ensures Frames(data, h, 0, 0) == []
  {
  }

  lemma LoopNumbers(block: nat, blockSize: nat, half: nat, channels: nat, length: nat, valid: bool)
    requires blockSize >= 1 && channels >= 1 && half == blockSize / 2
    requires length <= block * (2 * half * channels)
    requires 2 * half * channels > 0 ==> (length == block * (2 * half * channels) <==> valid)
    ensures block > 0 ==> (block * blockSize * channels == length <==> blockSize % 2 == 0 && valid)
  {
    var full := 2 * half * channels;
    if blockSize % 2 == 0 {
      assert block * blockSize * channels == block * full;
      MulMono(1, half, 2 * channels);
    } else if block > 0 {
      assert block * blockSize * channels == block * full + block * channels by {
        assert blockSize == 2 * half + 1;
        assert block * (2 * half + 1) * channels == block * (2 * half * channels) + block * channels;
      }
      MulMono(1, block, channels);
    }
  }

  function Batch(data: seq<byte>, h: Header): seq<int>
    requires h.Valid()
  {
    Frames(data, h, 0, Blocks(data, h))
  }

  /** Where the two loop mechanisms agree: dropping up to the loop point leaves what the stream plays after a reset. */
  lemma LoopMechanismsAgree(data: seq<byte>, h: Header, ops: seq<Op>, replay: seq<Op>, dropped: nat)
    requires h.Valid() && AllNext(replay) && |replay| >= Blocks(data, h)
    requires Run(data, h, ops, FRESH).looped
    requires LoopBlock(h).value <= Blocks(data, h) && LoopPointExact(data, h, LoopBlock(h).value)
    requires dropped == LoopStartSample(h).value * h.channels
    ensures dropped <= |Batch(data, h)|
    ensures Batch(data, h)[dropped..] == Played(data, h, replay, AfterReset(h, Run(data, h, ops, FRESH)))
  {
    hide Blocks, Frames, AllValid, Played, Run;
    ReplayIsSuffix(data, h, ops, replay);
    LoopPointExactWhen(data, h);
  }
}
