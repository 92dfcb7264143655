/**
 The predictive decoder for one block of one channel. Samples are the 16-bit numerators, before the division by 32768.
 */
module Adpcm {
  import opened Naturals
  import opened Wrappers

  const FILTER0: seq<int> := [0x0000, 0x00F0, 0x01CC, 0x0188, 0x01E8]
  const FILTER1: seq<int> := [0x0000, 0x0000, -0x00D0, -0x00DC, -0x00F0]
  const MAX_SHIFT: int := 0x0C
  const SAMPLE_MIN: int := -0x8000
  const SAMPLE_MAX: int := 0x7FFF

  datatype ChannelState = ChannelState(prev1: int, prev2: int) {
    predicate InRange() { SAMPLE_MIN <= prev1 <= SAMPLE_MAX && SAMPLE_MIN <= prev2 <= SAMPLE_MAX }
  }

  const SILENCE := ChannelState(0, 0)

  datatype AudioError = TruncatedBlock(need: nat, have: nat)

  /** Integer division as the decoder's 32-bit arithmetic does it: toward zero. */
  function TruncDiv(a: int, b: int): int
    requires b > 0
  {
    if a >= 0 then a / b else -((-a) / b)
  }

  function Pow2(n: nat): nat { if n == 0 then 1 else 2 * Pow2(n - 1) }

  function Clamp(value: int): (clamped: int)
    ensures SAMPLE_MIN <= clamped <= SAMPLE_MAX
  {
    if value < SAMPLE_MIN then SAMPLE_MIN else if value > SAMPLE_MAX then SAMPLE_MAX else value
  }

  function FilterIndex(hdr: byte): nat { hdr as nat / 16 }

  predicate ValidFilter(hdr: byte) { FilterIndex(hdr) < 5 }

  function Shift(hdr: byte): nat {
    var scale := MAX_SHIFT - hdr as int % 16;
    if scale > 0 then scale else 0
  }

  /** The low nibble of a byte comes first; eight and up are negative. */
  function Residual(b: byte, nibble: nat): (value: int)
    requires nibble < 2
    ensures -8 <= value < 8
  {
    var raw := (if nibble == 0 then b as int else b as int / 16) % 16;
    if raw >= 8 then raw - 16 else raw
  }

  function Prediction(hdr: byte, state: ChannelState): int
    requires ValidFilter(hdr)
  {
    TruncDiv(state.prev1 * FILTER0[FilterIndex(hdr)] + state.prev2 * FILTER1[FilterIndex(hdr)], 256)
  }

  /** One nibble decoded: its shifted residual and the prediction from the two samples before it, clamped. */
  function NextSample(hdr: byte, b: byte, nibble: nat, state: ChannelState): (sample: int)
    requires ValidFilter(hdr) && nibble < 2
    ensures SAMPLE_MIN <= sample <= SAMPLE_MAX
  {
    Clamp(Residual(b, nibble) * Pow2(Shift(hdr)) + Prediction(hdr, state))
  }

  /** The two samples a channel remembers. */
  function Last(h: seq<int>): ChannelState
    requires |h| >= 2
  {
    ChannelState(h[|h| - 1], h[|h| - 2])
  }

  /** The two remembered samples and after them the block's first `n`, each decoded from the two before it. */
  function History(block: seq<byte>, state: ChannelState, n: nat): (h: seq<int>)
    requires |block| > 0 && ValidFilter(block[0]) && n <= 2 * (|block| - 1)
    ensures |h| == n + 2
    decreases n
  {
    if n == 0 then [state.prev2, state.prev1]
    else
      var h := History(block, state, n - 1);
      h + [NextSample(block[0], block[1 + (n - 1) / 2], (n - 1) % 2, Last(h))]
  }

  /** What a block with `half` sample bytes adds to its channel. A filter out of range adds nothing. */
  function BlockSamples(block: seq<byte>, half: nat, state: ChannelState): seq<int>
    requires |block| >= 1 + half
  {
    if ValidFilter(block[0]) then History(block, state, 2 * half)[2..] else []
  }

  function BlockState(block: seq<byte>, half: nat, state: ChannelState): ChannelState
    requires |block| >= 1 + half
  {
    if ValidFilter(block[0]) then Last(History(block, state, 2 * half)) else state
  }

  lemma {:induction false} HistoryInRange(block: seq<byte>, state: ChannelState, n: nat)
    requires |block| > 0 && ValidFilter(block[0]) && n <= 2 * (|block| - 1) && state.InRange()
    ensures forall k :: 0 <= k < n + 2 ==> SAMPLE_MIN <= History(block, state, n)[k] <= SAMPLE_MAX
    decreases n
  {
    if n > 0 {
      HistoryInRange(block, state, n - 1);
    }
  }

  /** A decoded channel stays in 16 bits whatever the bytes. */
  lemma StateInRange(block: seq<byte>, half: nat, state: ChannelState)
    requires |block| >= 1 + half && state.InRange()
    ensures BlockState(block, half, state).InRange()
    ensures forall x :: x in BlockSamples(block, half, state) ==> SAMPLE_MIN <= x <= SAMPLE_MAX
  {
    if ValidFilter(block[0]) {
      HistoryInRange(block, state, 2 * half);
    }
  }

  // ---- the recurrence in the format's own numbers ----------------------------------------------------------------

  /** `q` is `x / 256` rounded toward zero. */
  predicate TowardZero(q: int, x: int) {
    if x >= 0 then 256 * q <= x < 256 * q + 256 else x <= 256 * q < x + 256
  }

  /** The weights of the two samples before, for each of the five filters. */
  function Weights(filter: nat): (int, int)
    requires filter < 5
  {
    match filter
    case 0 => (0, 0)
    case 1 => (240, 0)
    case 2 => (460, -208)
    case 3 => (392, -220)
    case _ => (488, -240)
  }

  /** How far a nibble is shifted: twelve bits less the header's low nibble. */
  function Power(low: nat): nat
    requires low < 16
  {
    [4096, 2048, 1024, 512, 256, 128, 64, 32, 16, 8, 4, 2, 1, 1, 1, 1][low]
  }

  /**
   One sample from its header byte, its nibble and the two samples before it, `q` being the predicted part: the signed
   nibble shifted, and a 256th of the earlier samples weighted by the filter, clamped to 16 bits.
   */
  predicate DecodesWith(hdr: nat, nibble: nat, prev1: int, prev2: int, sample: int, q: int)
    requires hdr / 16 < 5 && nibble < 16
  {
    var (f0, f1) := Weights(hdr / 16);
    var value := (if nibble < 8 then nibble else nibble - 16) * Power(hdr % 16) + q;
    && TowardZero(q, f0 * prev1 + f1 * prev2)
    && sample == if value < -32768 then -32768 else if value > 32767 then 32767 else value
  }

  ghost predicate Decodes(hdr: nat, nibble: nat, prev1: int, prev2: int, sample: int)
    requires hdr / 16 < 5 && nibble < 16
  {
    exists q :: DecodesWith(hdr, nibble, prev1, prev2, sample, q)
  }

  /** Sample `n` of a block comes from nibble `n`, the low one of each byte first, and the two samples before it. */
  ghost predicate DecodedAt(block: seq<byte>, state: ChannelState, samples: seq<int>, n: nat)
    requires n < |samples| <= 2 * (|block| - 1) && block[0] / 16 < 5
  {
    var b: nat := block[1 + n / 2];
    Decodes(block[0], if n % 2 == 0 then b % 16 else b / 16,
            if n == 0 then state.prev1 else samples[n - 1],
            if n == 0 then state.prev2 else if n == 1 then state.prev1 else samples[n - 2], samples[n])
  }

  ghost predicate AllDecoded(block: seq<byte>, state: ChannelState, samples: seq<int>)
    requires |block| > 0 && |samples| <= 2 * (|block| - 1) && block[0] / 16 < 5
  {
    forall n: nat :: n < |samples| ==> DecodedAt(block, state, samples, n)
  }

  lemma PowerOf(low: nat)
    requires low < 16
    ensures Power(low) == Pow2(if low < 12 then 12 - low else 0)
  {
    assert Pow2(3) == 8 && Pow2(6) == 8 * Pow2(3) && Pow2(9) == 8 * Pow2(6) && Pow2(12) == 8 * Pow2(9);
  }

  lemma RoundsTowardZero(x: int)
    ensures TowardZero(TruncDiv(x, 256), x)
  {
  }

  lemma ResidualOf(b: byte, nibble: nat)
    requires nibble < 2
    ensures var bits: nat := if nibble == 0 then b % 16 else b / 16;
            bits < 16 && Residual(b, nibble) == if bits < 8 then bits else bits - 16
  {
  }

  lemma PredictionOf(hdr: byte, state: ChannelState)
    requires ValidFilter(hdr)
    ensures var (f0, f1) := Weights(hdr / 16);
            Prediction(hdr, state) == TruncDiv(f0 * state.prev1 + f1 * state.prev2, 256)
  {
    var (f0, f1) := Weights(hdr / 16);
    assert FILTER0[FilterIndex(hdr)] == f0 && FILTER1[FilterIndex(hdr)] == f1;
    hide Weights, TruncDiv;
  }

  lemma NextDecodes(hdr: byte, b: byte, nibble: nat, state: ChannelState)
    requires ValidFilter(hdr) && nibble < 2
    ensures Decodes(hdr, if nibble == 0 then b % 16 else b / 16, state.prev1, state.prev2,
                    NextSample(hdr, b, nibble, state))
  {
    var (f0, f1) := Weights(hdr / 16);
    PowerOf(hdr % 16);
    ResidualOf(b, nibble);
    PredictionOf(hdr, state);
    RoundsTowardZero(f0 * state.prev1 + f1 * state.prev2);
    hide Pow2, Power, TruncDiv, TowardZero, Residual, Prediction, Weights;
    assert DecodesWith(hdr, if nibble == 0 then b % 16 else b / 16, state.prev1, state.prev2,
                       NextSample(hdr, b, nibble, state), Prediction(hdr, state));
  }

  /** Every sample of a block's history, in the format's own numbers. */
  lemma {:induction false} HistoryDecodes(block: seq<byte>, state: ChannelState, n: nat)
    requires |block| > 0 && ValidFilter(block[0]) && n <= 2 * (|block| - 1)
    ensures AllDecoded(block, state, History(block, state, n)[2..])
    decreases n
  {
    hide NextSample, Decodes;
    if n > 0 {
      HistoryDecodes(block, state, n - 1);
      var before, h := History(block, state, n - 1), History(block, state, n);
      var last := Last(before);
      NextDecodes(block[0], block[1 + (n - 1) / 2], (n - 1) % 2, last);
      forall k: nat | k < n
        ensures DecodedAt(block, state, h[2..], k)
      {
        if k < n - 1 {
          assert DecodedAt(block, state, before[2..], k);
        }
      }
    }
  }

  lemma OneDecode(hdr: nat, nibble: nat, prev1: int, prev2: int, a: int, b: int)
    requires hdr / 16 < 5 && nibble < 16
    requires Decodes(hdr, nibble, prev1, prev2, a) && Decodes(hdr, nibble, prev1, prev2, b)
    ensures a == b
  {
    var p :| DecodesWith(hdr, nibble, prev1, prev2, a, p);
    var q :| DecodesWith(hdr, nibble, prev1, prev2, b, q);
    var (f0, f1) := Weights(hdr / 16);
    OneRounding(p, q, f0 * prev1 + f1 * prev2);
    hide Weights, Power;
  }

  lemma OneRounding(p: int, q: int, x: int)
    requires TowardZero(p, x) && TowardZero(q, x)
    ensures p == q
  {
  }

  /** Those numbers leave one way to decode a block. */
  lemma {:induction false} DecodedOnce(block: seq<byte>, state: ChannelState, a: seq<int>, b: seq<int>)
    requires |block| > 0 && block[0] / 16 < 5 && |a| == |b| <= 2 * (|block| - 1)
    requires AllDecoded(block, state, a) && AllDecoded(block, state, b)
    ensures a == b
  {
    hide Decodes;
    for n := 0 to |a|
      invariant a[..n] == b[..n]
    {
      assert DecodedAt(block, state, a, n) && DecodedAt(block, state, b, n);
      assert forall k :: 0 <= k < n ==> a[k] == a[..n][k] && b[k] == b[..n][k];
      var byte: nat := block[1 + n / 2];
      OneDecode(block[0], if n % 2 == 0 then byte % 16 else byte / 16, if n == 0 then state.prev1 else a[n - 1],
                if n == 0 then state.prev2 else if n == 1 then state.prev1 else a[n - 2], a[n], b[n]);
    }
  }

  lemma ZeroNibble(nibble: nat, state: ChannelState)
    requires nibble < 2
    ensures ValidFilter(0) && NextSample(0, 0, nibble, state) == 0
  {
    hide Pow2;
  }

  lemma OneNibble(state: ChannelState)
    ensures ValidFilter(0) && NextSample(0, 1, 0, state) == 0x1000
  {
    assert Pow2(12) == 8 * Pow2(9) && Pow2(9) == 8 * Pow2(6) && Pow2(6) == 8 * Pow2(3);
  }

  /** Filter 0 predicts nothing, so a block of zeros is silent whatever its channel remembers. */
  lemma {:induction false} SilentHistory(block: seq<byte>, state: ChannelState, n: nat)
    requires |block| > 0 && n <= 2 * (|block| - 1) && forall i :: 0 <= i < |block| ==> block[i] == 0
    ensures ValidFilter(0) && forall k :: 2 <= k < n + 2 ==> History(block, state, n)[k] == 0
    decreases n
  {
    hide NextSample;
    ZeroNibble(0, state);
    if n > 0 {
      SilentHistory(block, state, n - 1);
      ZeroNibble((n - 1) % 2, Last(History(block, state, n - 1)));
    }
  }

  lemma SilentBlock(block: seq<byte>, half: nat, state: ChannelState)
    requires |block| == 1 + half && forall i :: 0 <= i < |block| ==> block[i] == 0
    ensures forall x :: x in BlockSamples(block, half, state) ==> x == 0
  {
    SilentHistory(block, state, 2 * half);
  }

  lemma {:induction false} FirstStays(block: seq<byte>, state: ChannelState, n: nat)
    requires |block| > 0 && ValidFilter(block[0]) && 0 < n <= 2 * (|block| - 1)
    ensures History(block, state, n)[2] == History(block, state, 1)[2]
    decreases n
  {
    hide NextSample;
    if n > 1 {
      FirstStays(block, state, n - 1);
    }
  }

  /** The first nibble 1 under filter 0 and the widest shift sounds, whatever came before. */
  lemma LoudBlock(block: seq<byte>, half: nat, state: ChannelState)
    requires half > 0 && |block| == 1 + half && block[0] == 0 && block[1] == 1
    ensures |BlockSamples(block, half, state)| == 2 * half && BlockSamples(block, half, state)[0] == 0x1000
  {
    hide NextSample;
    var h := History(block, state, 0);
    OneNibble(Last(h));
    FirstStays(block, state, 2 * half);
    assert History(block, state, 1) == h + [NextSample(0, 1, 0, Last(h))];
  }

  predicate FitsI32(x: int) { -0x8000_0000 <= x < 0x8000_0000 }

  /** No step of the arithmetic leaves 32 bits: not the products, not their sum, not the shifted residual. */
  lemma StepFitsI32(hdr: byte, residual: int, state: ChannelState)
    requires ValidFilter(hdr) && -8 <= residual < 8 && state.InRange()
    ensures var p := state.prev1 * FILTER0[FilterIndex(hdr)];
            var q := state.prev2 * FILTER1[FilterIndex(hdr)];
            var shifted := residual * Pow2(Shift(hdr));
            FitsI32(p) && FitsI32(q) && FitsI32(p + q) && FitsI32(shifted)
            && FitsI32(shifted + TruncDiv(p + q, 256))
  {
    ShiftBound(Shift(hdr));
    ResidualBound(residual, Pow2(Shift(hdr)));
    ProductBound(state.prev1, FILTER0[FilterIndex(hdr)]);
    ProductBound(state.prev2, FILTER1[FilterIndex(hdr)]);
    hide Pow2, Shift, FilterIndex;
  }

  lemma ResidualBound(residual: int, pow: nat)
    requires -8 <= residual < 8 && pow <= 4096
    ensures -0x8000 <= residual * pow <= 0x8000
  {
    MulMono(-8, residual, pow);
    MulMono(residual, 8, pow);
  }

  lemma {:induction false} ShiftBound(n: nat)
    requires n <= 12
    ensures Pow2(n) <= 4096
    decreases 12 - n
  {
    if n < 12 {
      ShiftBound(n + 1);
    } else {
      assert Pow2(12) == 8 * Pow2(9) && Pow2(9) == 8 * Pow2(6) && Pow2(6) == 8 * Pow2(3);
    }
  }

  lemma ProductBound(x: int, f: int)
    requires SAMPLE_MIN <= x <= SAMPLE_MAX && -0x200 <= f <= 0x200
    ensures -0x100_0000 <= x * f <= 0x100_0000
  {
    ScaledBound(x, if f >= 0 then f else -f);
    Negated(x, f);
  }

  lemma ScaledBound(x: int, f: nat)
    requires -0x8000 <= x <= 0x8000 && f <= 0x200
    ensures -0x100_0000 <= x * f <= 0x100_0000
  {
    MulMono(-0x8000, x, f);
    MulMono(x, 0x8000, f);
  }

  lemma Negated(x: int, f: int)
    ensures x * -f == -(x * f)
  {
  }

  lemma HistoryStep(block: seq<byte>, state: ChannelState, sampleI: nat, nibble: nat)
    requires |block| > 0 && ValidFilter(block[0]) && nibble < 2 && sampleI < |block| - 1
    ensures var n := 2 * sampleI + nibble;
            var h := History(block, state, n);
            History(block, state, n + 1)
            == h + [NextSample(block[0], block[1 + sampleI], nibble, Last(h))]
  {
    var n := 2 * sampleI + nibble;
    assert n / 2 == sampleI && n % 2 == nibble;
  }

  lemma HistoryStart(block: seq<byte>, state: ChannelState)
    requires |block| > 0 && ValidFilter(block[0])
    ensures History(block, state, 0) == [state.prev2, state.prev1]
  {
  }

  /** A short block is refused and touches nothing; any other adds its samples. */
  method DecodeBlockInto(block: seq<byte>, blockSize: nat, state: ChannelState, out: seq<int>)
    returns (result: Result<(), AudioError>, state': ChannelState, out': seq<int>)
    ensures var half := blockSize / 2;
            if |block| < 1 + half then
              result == Err(TruncatedBlock(1 + half, |block|)) && state' == state && out' == out
            else
              result == Ok(()) && state' == BlockState(block, half, state)
              && out' == out + BlockSamples(block, half, state)
    ensures result.Ok? ==>
              if block[0] / 16 >= 5 then state' == state && out' == out
              else
                var samples := out'[|out|..];
                && out <= out' && |samples| == 2 * (blockSize / 2) && AllDecoded(block, state, samples)
                && (samples != [] ==>
                      && state'.prev1 == samples[|samples| - 1]
                      && state'.prev2 == samples[|samples| - 2])
  {
    state', out' := state, out;
    var half := blockSize / 2;
    if |block| < 1 + half {
      return Err(TruncatedBlock(1 + half, |block|)), state', out';
    }
    result := Ok(());
    var hdr := block[0];
    if FilterIndex(hdr) >= 5 {
      return;
    }
    state', out' := DecodeNibbles(block, half, state, out);
    HistoryDecodes(block, state, 2 * half);
    assert out'[|out|..] == History(block, state, 2 * half)[2..];
  }

  /** The two nested loops: each byte, and in it each nibble. */
  method DecodeNibbles(block: seq<byte>, half: nat, state: ChannelState, out: seq<int>)
    returns (state': ChannelState, out': seq<int>)
    requires |block| >= 1 + half && ValidFilter(block[0])
    ensures state' == Last(History(block, state, 2 * half)) && out' == out + History(block, state, 2 * half)[2..]
  {
    hide History, NextSample;
    state', out' := state, out;
    HistoryStart(block, state);
    ghost var h := History(block, state, 0);
    for sampleI := 0 to half
      invariant h == History(block, state, 2 * sampleI)
      invariant out' == out + h[2..] && state' == Last(h)
    {
      for nibble := 0 to 2
        invariant h == History(block, state, 2 * sampleI + nibble)
        invariant out' == out + h[2..] && state' == Last(h)
      {
        HistoryStep(block, state, sampleI, nibble);
        var clamped := NextSample(block[0], block[1 + sampleI], nibble, state');
        state' := ChannelState(clamped, state'.prev1);
        out' := out' + [clamped];
        h := h + [clamped];
      }
    }
  }
}
