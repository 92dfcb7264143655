/**
 The PCM decoder: each block holds every channel's samples as a run of 16-bit words, and the output is frame by frame.
 Where each word goes is a permutation of the whole blocks' words.
 */
module Pcm {
  import opened Naturals
  import opened Wrappers
  import opened Adpcm
  import opened Interleaving
  import opened Decode

  /** The `k`-th little-endian 16-bit word. */
  function Word(data: seq<byte>, k: nat): int
    requires 2 * k + 1 < |data|
  {
    var raw := data[2 * k] as int + 0x100 * data[2 * k + 1] as int;
    if raw >= 0x8000 then raw - 0x1_0000 else raw
  }

  /** A word is its low byte and 256 times its high one, the high one signed. */
  lemma WordByBytes(data: seq<byte>, k: nat)
    requires 2 * k + 1 < |data|
    ensures var low: nat, high: nat := data[2 * k], data[2 * k + 1];
            Word(data, k) == low + 256 * (if high < 128 then high else high - 256)
  {
  }

  function BlockWords(h: Header): (n: nat)
    ensures h.Valid() ==> n > 0
  {
    h.blockSize * h.channels
  }

  /** The whole blocks there are; the header's count is not consulted. */
  function PcmBlocks(data: seq<byte>, h: Header): nat
    requires h.Valid()
  {
    Quotient(|data|, 2 * BlockWords(h))
  }

  /** Block `b`, channel `ch`, sample `s`, as an index of words. */
  function WordIndex(h: Header, b: nat, ch: nat, s: nat): nat { Join(Join(b, ch, h.channels), s, h.blockSize) }

  lemma WordInBounds(data: seq<byte>, h: Header, b: nat, ch: nat, s: nat)
    requires h.Valid() && b < PcmBlocks(data, h) && ch < h.channels && s < h.blockSize
    ensures WordIndex(h, b, ch, s) < PcmBlocks(data, h) * BlockWords(h)
    ensures 2 * WordIndex(h, b, ch, s) + 1 < |data|
  {
    hide Join;
    var n := PcmBlocks(data, h);
    JoinBound(b, n, ch, h.channels);
    JoinBound(Join(b, ch, h.channels), n * h.channels, s, h.blockSize);
    Regroup(n, h.channels, h.blockSize);
    WholeWords(n, BlockWords(h), |data|);
  }

  lemma WholeWords(n: nat, words: nat, length: nat)
    requires words > 0 && n > 0 && n <= Quotient(length, 2 * words)
    ensures 2 * (n * words) <= length
  {
    QuotientBound(length, 2 * words, n - 1);
    Doubled(n, words);
  }

  /** Channel `ch`'s samples of the first `b` blocks. */
  function Row(data: seq<byte>, h: Header, ch: nat, b: nat): (row: seq<int>)
    requires h.Valid() && ch < h.channels && b <= PcmBlocks(data, h)
    ensures |row| == b * h.blockSize
    decreases b
  {
    if b == 0 then []
    else
      Distribute(b, h.blockSize);
      Row(data, h, ch, b - 1) + BlockRow(data, h, ch, b - 1, h.blockSize)
  }

  function BlockRow(data: seq<byte>, h: Header, ch: nat, b: nat, upTo: nat): (row: seq<int>)
    requires h.Valid() && ch < h.channels && b < PcmBlocks(data, h) && upTo <= h.blockSize
    ensures |row| == upTo
    decreases upTo
  {
    if upTo == 0 then []
    else
      WordInBounds(data, h, b, ch, upTo - 1);
      BlockRow(data, h, ch, b, upTo - 1) + [Word(data, WordIndex(h, b, ch, upTo - 1))]
  }

  function Rows(data: seq<byte>, h: Header, b: nat): (rows: seq<seq<int>>)
    requires h.Valid() && b <= PcmBlocks(data, h)
    ensures |rows| == h.channels && AllLong(rows, b * h.blockSize)
  {
    seq(h.channels, ch requires 0 <= ch < h.channels => Row(data, h, ch, b))
  }

  lemma {:induction false} BlockRowAt(data: seq<byte>, h: Header, ch: nat, b: nat, upTo: nat, s: nat)
    requires h.Valid() && ch < h.channels && b < PcmBlocks(data, h) && s < upTo <= h.blockSize
    ensures 2 * WordIndex(h, b, ch, s) + 1 < |data|
    ensures BlockRow(data, h, ch, b, upTo)[s] == Word(data, WordIndex(h, b, ch, s))
    decreases upTo
  {
    hide PcmBlocks, WordIndex, Word;
    WordInBounds(data, h, b, ch, s);
    if s < upTo - 1 {
      BlockRowAt(data, h, ch, b, upTo - 1, s);
    }
  }

  lemma {:induction false} RowAt(data: seq<byte>, h: Header, ch: nat, n: nat, b: nat, s: nat)
    requires h.Valid() && ch < h.channels && b < n <= PcmBlocks(data, h) && s < h.blockSize
    ensures Join(b, s, h.blockSize) < |Row(data, h, ch, n)|
    ensures 2 * WordIndex(h, b, ch, s) + 1 < |data|
    ensures Row(data, h, ch, n)[Join(b, s, h.blockSize)] == Word(data, WordIndex(h, b, ch, s))
    decreases n
  {
    hide PcmBlocks, WordIndex, Word;
    JoinBound(b, n, s, h.blockSize);
    WordInBounds(data, h, b, ch, s);
    if b < n - 1 {
      JoinBound(b, n - 1, s, h.blockSize);
      RowAt(data, h, ch, n - 1, b, s);
    } else {
      BlockRowAt(data, h, ch, b, h.blockSize, s);
    }
  }

  method DecodePcm(data: seq<byte>, h: Header) returns (out: seq<int>)
    requires h.Valid()
    ensures var n := PcmBlocks(data, h);
            && ByFrames(out, Rows(data, h, n), n * h.blockSize)
  {
    hide PcmBlocks, Word, WordIndex;
    var blocks := PcmBlocks(data, h);
    var perChannel: seq<seq<int>> := seq(h.channels, _ => []);
    for b := 0 to blocks
      invariant perChannel == Rows(data, h, b)
    {
      for ch := 0 to h.channels
        invariant |perChannel| == h.channels
        invariant forall c :: 0 <= c < ch ==> perChannel[c] == Row(data, h, c, b + 1)
        invariant forall c :: ch <= c < h.channels ==> perChannel[c] == Row(data, h, c, b)
      {
        var row := [];
        for s := 0 to h.blockSize
          invariant row == BlockRow(data, h, ch, b, s)
        {
          WordInBounds(data, h, b, ch, s);
          row := row + [Word(data, WordIndex(h, b, ch, s))];
        }
        perChannel := perChannel[ch := perChannel[ch] + row];
      }
    }
    out := InterleaveRows(perChannel);
    assert MinLength(perChannel) == blocks * h.blockSize;
    InterleaveAt(perChannel, blocks * h.blockSize);
  }

  // ---- the permutation --------------------------------------------------------------------------------------------

  /** Where word `w` goes: its channel and its place in the block change ranks. */
  function OutIndex(h: Header, w: nat): nat
    requires h.Valid()
  {
    Swapped(w, h.channels, h.blockSize)
  }

  /** Which word is at output index `p`. */
  function WordAt(h: Header, p: nat): nat
    requires h.Valid()
  {
    Swapped(p, h.blockSize, h.channels)
  }

  /** The words of the whole blocks and the output indices are in one-to-one correspondence. */
  lemma OutIndexIsPermutation(h: Header, n: nat, w: nat)
    requires h.Valid() && w < n * BlockWords(h)
    ensures OutIndex(h, w) < n * BlockWords(h) && WordAt(h, OutIndex(h, w)) == w
    ensures WordAt(h, w) < n * BlockWords(h) && OutIndex(h, WordAt(h, w)) == w
  {
    hide Swapped;
    Regroup(n, h.channels, h.blockSize);
    Regroup(n, h.blockSize, h.channels);
    SwappedBack(w, n, h.channels, h.blockSize);
    SwappedBack(w, n, h.blockSize, h.channels);
  }

  /** A word split into block, channel and place: its index is put together from them and its output index from both. */
  lemma WordSplits(h: Header, n: nat, w: nat) returns (b: nat, ch: nat, s: nat)
    requires h.Valid() && w < n * BlockWords(h)
    ensures b < n && ch < h.channels && s < h.blockSize
    ensures w == WordIndex(h, b, ch, s) && OutIndex(h, w) == Join(Join(b, s, h.blockSize), ch, h.channels)
  {
    hide Quotient, Remainder, Join;
    Regroup(n, h.channels, h.blockSize);
    var t := Quotient(w, h.blockSize);
    s := Remainder(w, h.blockSize);
    b, ch := Quotient(t, h.channels), Remainder(t, h.channels);
    PartsJoin(w, h.blockSize, n * h.channels);
    PartsJoin(t, h.channels, n);
  }

  lemma FrameHolds(out: seq<int>, rows: seq<seq<int>>, frames: nat, frame: nat, ch: nat)
    requires frame < frames && ch < |rows| && AllLong(rows, frames) && ByFrames(out, rows, frames)
    ensures Join(frame, ch, |rows|) < |out| && out[Join(frame, ch, |rows|)] == rows[ch][frame]
  {
  }

  lemma RowOf(data: seq<byte>, h: Header, b: nat, ch: nat)
    requires h.Valid() && b <= PcmBlocks(data, h) && ch < h.channels
    ensures Rows(data, h, b)[ch] == Row(data, h, ch, b)
  {
  }

  lemma OutputLength(h: Header, out: seq<int>, rows: seq<seq<int>>, n: nat)
    requires |rows| == h.channels && AllLong(rows, n * h.blockSize) && ByFrames(out, rows, n * h.blockSize)
    ensures |out| == n * BlockWords(h)
  {
    Regroup(n, h.channels, h.blockSize);
    Regroup(n, h.blockSize, h.channels);
  }

  /** The output is an exact permutation of the whole blocks' words. */
  lemma OutputPermutesWords(data: seq<byte>, h: Header, out: seq<int>, w: nat)
    requires h.Valid() && w < PcmBlocks(data, h) * BlockWords(h)
    requires ByFrames(out, Rows(data, h, PcmBlocks(data, h)), PcmBlocks(data, h) * h.blockSize)
    ensures |out| == PcmBlocks(data, h) * BlockWords(h)
    ensures 2 * w + 1 < |data| && OutIndex(h, w) < |out| && out[OutIndex(h, w)] == Word(data, w)
  {
    hide PcmBlocks, BlockWords, Word, WordIndex, OutIndex, Join, ByFrames, Rows, Row;
    var n := PcmBlocks(data, h);
    var rows := Rows(data, h, n);
    OutputLength(h, out, rows, n);
    var b, ch, s := WordSplits(h, n, w);
    JoinBound(b, n, s, h.blockSize);
    RowAt(data, h, ch, n, b, s);
    RowOf(data, h, n, ch);
    FrameHolds(out, rows, n * h.blockSize, Join(b, s, h.blockSize), ch);
  }
}
