/** Interleaving the channels' rows of samples, frame by frame. */
module Interleaving {
  import opened Naturals

  /** The `i`-th sample of every row. */
  function Frame(rows: seq<seq<int>>, i: nat): (frame: seq<int>)
    requires forall c :: 0 <= c < |rows| ==> i < |rows[c]|
    ensures |frame| == |rows|
  {
    seq(|rows|, c requires 0 <= c < |rows| => rows[c][i])
  }

  function Interleave(rows: seq<seq<int>>, frames: nat): seq<int>
    requires forall c :: 0 <= c < |rows| ==> frames <= |rows[c]|
    decreases frames
  {
    if frames == 0 then [] else Interleave(rows, frames - 1) + Frame(rows, frames - 1)
  }

  /** `out` is `rows` frame by frame: place `c` of frame row `frame` holds row `c`'s sample `frame`. */
  predicate ByFrames(out: seq<int>, rows: seq<seq<int>>, frames: nat)
    requires forall c :: 0 <= c < |rows| ==> frames <= |rows[c]|
  {
    && |out| == frames * |rows|
    && forall i: nat, c: nat :: i < frames && c < |rows| ==>
                                  Join(i, c, |rows|) < |out| && out[Join(i, c, |rows|)] == rows[c][i]
  }

  lemma {:induction false} InterleaveAt(rows: seq<seq<int>>, frames: nat)
    requires forall c :: 0 <= c < |rows| ==> frames <= |rows[c]|
    ensures ByFrames(Interleave(rows, frames), rows, frames)
    decreases frames
  {
    if frames > 0 {
      InterleaveAt(rows, frames - 1);
      FrameAdded(Interleave(rows, frames - 1), rows, frames);
    }
  }

  lemma FrameAdded(out: seq<int>, rows: seq<seq<int>>, frames: nat)
    requires frames > 0 && forall c :: 0 <= c < |rows| ==> frames <= |rows[c]|
    requires ByFrames(out, rows, frames - 1)
    ensures ByFrames(out + Frame(rows, frames - 1), rows, frames)
  {
    var n := |rows|;
    var out' := out + Frame(rows, frames - 1);
    Distribute(frames, n);
    forall i: nat, c: nat | i < frames && c < n
      ensures Join(i, c, n) < |out'| && out'[Join(i, c, n)] == rows[c][i]
    {
      if i < frames - 1 {
        JoinBound(i, frames - 1, c, n);
      } else {
        assert Join(i, c, n) == |out| + c;
        hide Join;
      }
    }
  }

  lemma Distribute(frames: nat, n: nat)
    requires frames > 0
    ensures frames * n == (frames - 1) * n + n
  {
  }

  lemma InterleaveStep(rows: seq<seq<int>>, frames: nat)
    requires frames > 0 && forall c :: 0 <= c < |rows| ==> frames <= |rows[c]|
    ensures Interleave(rows, frames) == Interleave(rows, frames - 1) + Frame(rows, frames - 1)
  {
  }

  /** Row by row, the second table after the first. */
  function Joined(rows: seq<seq<int>>, more: seq<seq<int>>): (joined: seq<seq<int>>)
    requires |rows| == |more|
    ensures |joined| == |rows|
  {
    seq(|rows|, c requires 0 <= c < |rows| => rows[c] + more[c])
  }

  predicate AllLong(rows: seq<seq<int>>, n: nat) { forall c :: 0 <= c < |rows| ==> |rows[c]| == n }

  lemma JoinedLong(rows: seq<seq<int>>, more: seq<seq<int>>, n: nat, m: nat)
    requires |rows| == |more| && AllLong(rows, n) && AllLong(more, m)
    ensures AllLong(Joined(rows, more), n + m) && forall c :: 0 <= c < |rows| ==> rows[c] <= Joined(rows, more)[c]
  {
  }

  lemma FrameJoined(rows: seq<seq<int>>, more: seq<seq<int>>, n: nat, m: nat)
    requires |rows| == |more| && AllLong(rows, n) && AllLong(more, m) && m > 0
    ensures AllLong(Joined(rows, more), n + m) && Frame(Joined(rows, more), n + m - 1) == Frame(more, m - 1)
  {
  }

  /** The rows without their last sample. */
  function Shorter(rows: seq<seq<int>>, n: nat): (shorter: seq<seq<int>>)
    requires n > 0 && AllLong(rows, n)
    ensures |shorter| == |rows| && AllLong(shorter, n - 1) && forall c :: 0 <= c < |rows| ==> shorter[c] <= rows[c]
  {
    seq(|rows|, c requires 0 <= c < |rows| => rows[c][..n - 1])
  }

  lemma JoinedPrefix(rows: seq<seq<int>>, more: seq<seq<int>>, prefixes: seq<seq<int>>)
    requires |rows| == |more| == |prefixes| && forall c :: 0 <= c < |more| ==> prefixes[c] <= more[c]
    ensures forall c :: 0 <= c < |rows| ==> Joined(rows, prefixes)[c] <= Joined(rows, more)[c]
  {
  }

  /** When all rows of a table are equally long, what follows it is interleaved after it. */
  lemma {:induction false} InterleaveJoined(rows: seq<seq<int>>, more: seq<seq<int>>, n: nat, m: nat)
    requires |rows| == |more| && AllLong(rows, n) && AllLong(more, m)
    ensures Interleave(Joined(rows, more), n + m) == Interleave(rows, n) + Interleave(more, m)
    decreases m
  {
    hide Interleave, Joined, Frame, Shorter;
    JoinedLong(rows, more, n, m);
    if m == 0 {
      InterleavePrefix(Joined(rows, more), rows, n);
      NoFramesYet(more);
    } else {
      var shorter := Shorter(more, m);
      InterleaveJoined(rows, shorter, n, m - 1);
      JoinedLong(rows, shorter, n, m - 1);
      JoinedPrefix(rows, more, shorter);
      InterleavePrefix(Joined(rows, more), Joined(rows, shorter), n + m - 1);
      InterleavePrefix(more, shorter, m - 1);
      FrameJoined(rows, more, n, m);
      InterleaveStep(Joined(rows, more), n + m);
      InterleaveStep(more, m);
      AppendAfter(Interleave(rows, n), Interleave(more, m - 1), Frame(more, m - 1));
    }
  }

  lemma NoFramesYet(rows: seq<seq<int>>)
    ensures Interleave(rows, 0) == []
  {
  }

  lemma AppendAfter(a: seq<int>, b: seq<int>, c: seq<int>)
    ensures (a + b) + c == a + (b + c)
  {
  }

  /** Interleaving looks at no more of a row than the frames it takes. */
  lemma {:induction false} InterleavePrefix(rows: seq<seq<int>>, prefixes: seq<seq<int>>, frames: nat)
    requires |rows| == |prefixes|
    requires forall c :: 0 <= c < |rows| ==> prefixes[c] <= rows[c] && frames <= |prefixes[c]|
    ensures Interleave(rows, frames) == Interleave(prefixes, frames)
    decreases frames
  {
    if frames > 0 {
      InterleavePrefix(rows, prefixes, frames - 1);
      assert Frame(rows, frames - 1) == Frame(prefixes, frames - 1);
    }
  }

  /** The length of the shortest row; of none, zero. */
  function MinLength(rows: seq<seq<int>>): (n: nat)
    ensures forall c :: 0 <= c < |rows| ==> n <= |rows[c]|
    ensures rows != [] ==> exists c :: 0 <= c < |rows| && n == |rows[c]|
    ensures rows == [] ==> n == 0
  {
    if rows == [] then 0
    else if |rows| == 1 then |rows[0]|
    else
      var rest := MinLength(rows[1..]);
      if |rows[0]| <= rest then |rows[0]|
      else
        assert exists c :: 0 <= c < |rows[1..]| && rest == |rows[1..][c]|;
        rest
  }

  method InterleaveRows(rows: seq<seq<int>>) returns (out: seq<int>)
    ensures out == Interleave(rows, MinLength(rows))
  {
    out := [];
    var frames := MinLength(rows);
    for i := 0 to frames
      invariant out == Interleave(rows, i)
    {
      for c := 0 to |rows|
        invariant out == Interleave(rows, i) + Frame(rows, i)[..c]
      {
        out := out + [rows[c][i]];
      }
    }
  }
}
