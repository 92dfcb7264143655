/**
 One clip's playback: a playhead that runs, wraps, counts its loops and comes to rest. The wrap loop is specified by
 how many whole lengths fit, so playback does not depend on how a stretch of time is cut into ticks.
 */
module Playback {
  import opened Wrappers
  import opened Matrix
  import opened Reals

  datatype Transform = Transform(rotation: Quat, translation: Vec3, scale: Vec3)

  type Snapshot = map<nat, Transform>

  /** A clip: the joints it keys and their records by playhead. Interpolation between its keys is inside `record`. */
  datatype Clip = Clip(id: nat, finalDigit: Option<nat>, numFrames: nat, keyRate: real, length: real,
                       keyed: set<nat>, record: (nat, real) -> Transform)
  {
    function At(joint: nat, frame: real): Option<Transform> {
      if joint in keyed then Some(record(joint, frame)) else None
    }
  }

  datatype LoopParams = LoopParams(loopDuration: Option<real>, numLoops: Option<nat>, lowPriority: bool)

  const LOW_PRIORITY_LOOP := LoopParams(None, None, true)

  datatype TransitionParams = TransitionParams(inTime: real, outTime: real, eagerOut: bool, inStep: bool,
                                               turnTowardTarget: bool, facing: Option<Snapshot>)

  /** Everything a playing clip holds. */
  datatype Context = Context(animation: Clip, loopParams: LoopParams, transitionParams: Option<TransitionParams>,
                             currentFrame: real, framesSinceComplete: real, totalLifeTime: real,
                             completed: bool, loopCounter: nat)
  {
    function MaxLoops(): nat { match loopParams.numLoops case None => 0 case Some(n) => n }

    /** Clips have a length and a loop duration, when one is set, is zero (a freeze) or positive. */
    predicate Playable() {
      animation.length > 0.0 && (loopParams.loopDuration.Some? ==> loopParams.loopDuration.value >= 0.0)
    }

    predicate Freezes() { loopParams.loopDuration == Some(0.0) }

    /** Playhead frames per elapsed frame. */
    function Rate(): real
      requires Playable() && !Freezes()
    {
      match loopParams.loopDuration
      case None => animation.length / animation.length
      case Some(duration) => animation.length / duration
    }

    predicate Eager() { transitionParams.Some? && transitionParams.value.eagerOut }

    function At(joint: nat): Option<Transform> { animation.At(joint, currentFrame) }

    predicate IsDoneLooping() { loopParams.numLoops.None? || completed }

    /** No loop has been counted yet. */
    predicate IsNew() { framesSinceComplete == 0.0 && totalLifeTime == 0.0 && !completed && loopCounter == 0 }

    /** Where a run can stand: the playhead is not negative, and a completed clip rests on its end. */
    predicate Steady() {
      && currentFrame >= 0.0
      && (completed && !Freezes() ==> MaxLoops() != 0 && loopCounter >= MaxLoops() && currentFrame == animation.length)
    }
  }

  function NewContext(animation: Clip, loopParams: LoopParams, transitionParams: Option<TransitionParams>): Context {
    Context(animation, loopParams, transitionParams, 0.0, 0.0, 0.0, false, 0)
  }

  /** How many whole lengths a playhead has run through. */
  function Wraps(x: real, length: real): (n: nat)
    requires length > 0.0
  {
    if x < length then 0
    else
      QuotientNotNegative(x, length);
      (x / length).Floor
  }

  lemma QuotientNotNegative(x: real, length: real)
    requires x >= length > 0.0
    ensures x / length >= 1.0
  {
    DivMul(x, length);
    FactorAtLeastOne(x / length, length);
  }

  lemma FactorAtLeastOne(q: real, length: real)
    requires length > 0.0 && q * length >= length
    ensures q >= 1.0
  {
    if q < 1.0 {
      MulStrict(q, 1.0, length);
    }
  }

  lemma WrapsStep(x: real, length: real)
    requires x >= length > 0.0
    ensures Wraps(x, length) == 1 + Wraps(x - length, length)
  {
    var q := x / length;
    QuotientNotNegative(x, length);
    DivMul(x, length);
    assert (x - length) / length == q - 1.0 by {
      DivMul(x - length, length);
      MulCancel((x - length) / length, q - 1.0, length);
    }
    if x - length < length {
      if q >= 2.0 {
        MulMonotone(2.0, q, length);
      }
      assert q.Floor == 1;
    }
  }

  function Scaled(n: nat, length: real): real { n as real * length }

  lemma ScaledStep(n: nat, length: real)
    ensures Scaled(n + 1, length) == Scaled(n, length) + length
  {
  }

  /** What is left after the wraps lies within one length. */
  lemma {:induction false} WrapsRemainder(x: real, length: real)
    requires length > 0.0 && x >= 0.0
    ensures 0.0 <= x - Scaled(Wraps(x, length), length) < length
    decreases Wraps(x, length)
  {
    if x >= length {
      WrapsStep(x, length);
      WrapsRemainder(x - length, length);
      ScaledStep(Wraps(x - length, length), length);
    } else {
      assert Scaled(0, length) == 0.0;
    }
  }

  /** Wrapping halfway and going on counts the same wraps as going straight through. */
  lemma {:induction false} WrapsAdd(x: real, y: real, length: real)
    requires length > 0.0 && x >= 0.0 && y >= 0.0
    ensures Wraps(x + y, length) == Wraps(x, length) + Wraps(x - Scaled(Wraps(x, length), length) + y, length)
    decreases Wraps(x, length)
  {
    if x >= length {
      WrapsStep(x, length);
      WrapsStep(x + y, length);
      WrapsAdd(x - length, y, length);
      ScaledStep(Wraps(x - length, length), length);
      assert x - length + y == x + y - length;
      assert x - Scaled(Wraps(x, length), length) + y
             == x - length - Scaled(Wraps(x - length, length), length) + y;
    } else {
      assert Scaled(0, length) == 0.0;
    }
  }

  /** `n` lengths fit exactly when the playhead has come that far. */
  lemma {:induction false} WrapsAtLeast(x: real, n: nat, length: real)
    requires length > 0.0 && x >= 0.0
    ensures Wraps(x, length) >= n <==> x >= Scaled(n, length)
    decreases n
  {
    if n == 0 {
      assert Scaled(0, length) == 0.0;
    } else {
      ScaledStep(n - 1, length);
      if x >= length {
        WrapsStep(x, length);
        WrapsAtLeast(x - length, n - 1, length);
      } else {
        ScaledNotNegative(n - 1, length);
      }
    }
  }

  lemma ScaledNotNegative(n: nat, length: real)
    requires length > 0.0
    ensures Scaled(n, length) >= 0.0
  {
    MulMonotone(0.0, n as real, length);
  }

  // ---- one tick ---------------------------------------------------------------------------------------------------

  /** The playhead before wrapping. */
  function Reached(c: Context, elapsed: real): real
    requires c.Playable() && !c.Freezes()
  {
    c.currentFrame + elapsed * c.Rate()
  }

  /** Without a loop duration the playhead runs a frame a frame; under one of `d` frames it runs one length in `d`. */
  lemma ReachedIn(c: Context, elapsed: real)
    requires c.Playable() && !c.Freezes()
    ensures c.loopParams.loopDuration.None? ==> Reached(c, elapsed) == c.currentFrame + elapsed
    ensures c.loopParams.loopDuration.Some? ==>
              var d := c.loopParams.loopDuration.value;
              && d > 0.0 && Reached(c, d) == c.currentFrame + c.animation.length
              && (Reached(c, elapsed) - c.currentFrame) * d == elapsed * c.animation.length
  {
    var rate := c.Rate();
    match c.loopParams.loopDuration {
      case None =>
        DivMul(c.animation.length, c.animation.length);
        MulCancel(rate, 1.0, c.animation.length);
      case Some(d) =>
        DivMul(c.animation.length, d);
        MulSame(elapsed, elapsed, rate * d, c.animation.length);
    }
  }

  /** A context after `elapsed` frames. */
  function Advanced(c: Context, elapsed: real): Context
    requires c.Playable()
  {
    var since := if c.completed || c.Eager() then c.framesSinceComplete + elapsed else c.framesSinceComplete;
    var aged := c.(totalLifeTime := c.totalLifeTime + elapsed, framesSinceComplete := since);
    if c.Freezes() then aged.(currentFrame := 0.0, completed := true)
    else
      var x := Reached(c, elapsed);
      var loops := c.loopCounter + Wraps(x, c.animation.length);
      if c.MaxLoops() != 0 && loops >= c.MaxLoops() then
        aged.(loopCounter := loops, completed := true, currentFrame := c.animation.length)
      else aged.(loopCounter := loops, currentFrame := x - Scaled(Wraps(x, c.animation.length), c.animation.length))
  }

  /** A playing clip, as the layers hold it. */
  class SkeletonAnimationContext {
    var animation: Clip
    var loopParams: LoopParams
    var transitionParams: Option<TransitionParams>
    var currentFrame: real
    var framesSinceComplete: real
    var totalLifeTime: real
    var completed: bool
    var loopCounter: nat

    function View(): Context
      reads this
    {
      Context(animation, loopParams, transitionParams, currentFrame, framesSinceComplete, totalLifeTime, completed,
              loopCounter)
    }

    constructor (animation: Clip, loopParams: LoopParams, transitionParams: Option<TransitionParams>)
      ensures View() == NewContext(animation, loopParams, transitionParams)
    {
      this.animation, this.loopParams, this.transitionParams := animation, loopParams, transitionParams;
      currentFrame, framesSinceComplete, totalLifeTime := 0.0, 0.0, 0.0;
      completed, loopCounter := false, 0;
    }

    constructor Clone(c: Context)
      ensures View() == c
    {
      animation, loopParams, transitionParams := c.animation, c.loopParams, c.transitionParams;
      currentFrame, framesSinceComplete, totalLifeTime := c.currentFrame, c.framesSinceComplete, c.totalLifeTime;
      completed, loopCounter := c.completed, c.loopCounter;
    }

    method Advance(elapsed: real)
      requires View().Playable()
      modifies this
      ensures View() == Advanced(old(View()), elapsed)
    {
      hide Wraps, Scaled;
      totalLifeTime := totalLifeTime + elapsed;
      var eager := transitionParams.Some? && transitionParams.value.eagerOut;
      if completed || eager {
        framesSinceComplete := framesSinceComplete + elapsed;
      }
      if loopParams.loopDuration == Some(0.0) {
        currentFrame := 0.0;
        completed := true;
        return;
      }
      var length := animation.length;
      var loopDuration := if loopParams.loopDuration.Some? then loopParams.loopDuration.value else length;
      var scalingFactor := length / loopDuration;
      MulSame(elapsed, elapsed, scalingFactor, old(View()).Rate());
      currentFrame := currentFrame + elapsed * scalingFactor;
      var bounded := ApplyLoopBounds();
      currentFrame := bounded;
    }

    /** Wraps the playhead a length at a time; says where it comes to rest. */
    method ApplyLoopBounds() returns (frame: real)
      requires View().Playable()
      modifies this`loopCounter, this`currentFrame, this`completed
      ensures var was := old(View());
              var loops := was.loopCounter + Wraps(was.currentFrame, animation.length);
              && loopCounter == loops
              && currentFrame == was.currentFrame - Scaled(Wraps(was.currentFrame, animation.length), animation.length)
              && (if was.MaxLoops() != 0 && loops >= was.MaxLoops() then completed && frame == animation.length
                  else completed == was.completed && frame == currentFrame)
    {
      var maxLoops := if loopParams.numLoops.Some? then loopParams.numLoops.value else 0;
      var length := animation.length;
      ghost var start := currentFrame;
      ghost var wraps := 0;
      assert Scaled(0, length) == 0.0;
      while length > 0.0 && currentFrame >= length
        invariant length == animation.length
        invariant loopCounter == old(loopCounter) + wraps
        invariant currentFrame == start - Scaled(wraps, length)
        invariant wraps + Wraps(currentFrame, length) == Wraps(start, length)
        invariant completed == old(completed)
        decreases Wraps(currentFrame, length)
      {
        WrapsStep(currentFrame, length);
        ScaledStep(wraps, length);
        loopCounter := loopCounter + 1;
        currentFrame := currentFrame - length;
        wraps := wraps + 1;
      }
      if maxLoops != 0 && loopCounter >= maxLoops {
        completed := true;
        return length;
      }
      return currentFrame;
    }
  }

  // ---- whole runs -------------------------------------------------------------------------------------------------

  /** Alike in all that playback shows: clip, playhead, completion, life time, and while it lasts the loop count. */
  ghost predicate Alike(a: Context, b: Context) {
    && a.animation == b.animation && a.loopParams == b.loopParams && a.transitionParams == b.transitionParams
    && a.currentFrame == b.currentFrame && a.completed == b.completed && a.totalLifeTime == b.totalLifeTime
    && (!a.completed ==> a.loopCounter == b.loopCounter)
  }

  lemma RatePositive(c: Context)
    requires c.Playable() && !c.Freezes()
    ensures c.Rate() > 0.0
  {
    var duration := if c.loopParams.loopDuration.Some? then c.loopParams.loopDuration.value else c.animation.length;
    DivMul(c.animation.length, duration);
    if c.Rate() <= 0.0 {
      MulMonotone(c.Rate(), 0.0, duration);
    }
  }

  lemma ReachedNotNegative(c: Context, elapsed: real)
    requires c.Playable() && !c.Freezes() && c.currentFrame >= 0.0 && elapsed >= 0.0
    ensures Reached(c, elapsed) >= c.currentFrame
  {
    RatePositive(c);
    MulMonotone(0.0, elapsed, c.Rate());
  }

  /** Ticks keep a run steady, and what has completed stays completed. */
  lemma AdvancedSteady(c: Context, elapsed: real)
    requires c.Playable() && c.Steady() && elapsed >= 0.0
    ensures Advanced(c, elapsed).Playable() && Advanced(c, elapsed).Steady()
    ensures c.completed ==> Advanced(c, elapsed).completed
    ensures !c.Freezes() ==> Advanced(c, elapsed).currentFrame <= c.animation.length
  {
    if !c.Freezes() {
      ReachedNotNegative(c, elapsed);
      WrapsRemainder(Reached(c, elapsed), c.animation.length);
    }
  }

  /** A completed clip rests on its end, or a frozen one on its start, for ever. */
  lemma CompletedRests(c: Context, elapsed: real)
    requires c.Playable() && c.Steady() && c.completed && elapsed >= 0.0
    ensures Advanced(c, elapsed).completed
    ensures Advanced(c, elapsed).currentFrame == if c.Freezes() then 0.0 else c.animation.length
  {
    AdvancedSteady(c, elapsed);
  }

  lemma RateSplits(c: Context, a: real, b: real)
    requires c.Playable() && !c.Freezes()
    ensures Reached(c, a + b) == Reached(c, a) + b * c.Rate()
  {
  }

  /** Before completion the loops counted and the playhead add up to the start and the scaled time since. */
  lemma TimeIsConserved(c: Context, elapsed: real)
    requires c.Playable() && !c.Freezes() && !Advanced(c, elapsed).completed
    ensures var c' := Advanced(c, elapsed);
            Scaled(c'.loopCounter, c.animation.length) + c'.currentFrame
            == Scaled(c.loopCounter, c.animation.length) + c.currentFrame + elapsed * c.Rate()
  {
    var wraps := Wraps(Reached(c, elapsed), c.animation.length);
    ScaledAdds(c.loopCounter, wraps, c.animation.length);
  }

  lemma ScaledAdds(m: nat, n: nat, length: real)
    ensures Scaled(m + n, length) == Scaled(m, length) + Scaled(n, length)
  {
    assert (m + n) as real == m as real + n as real;
  }

  /** A clip with `k` loops completes exactly when its total reaches `k` lengths. */
  lemma CompletesExactlyAt(c: Context, elapsed: real)
    requires c.Playable() && !c.Freezes() && c.Steady() && !c.completed && elapsed >= 0.0
    requires c.MaxLoops() > c.loopCounter
    ensures Advanced(c, elapsed).completed
            <==> Scaled(c.loopCounter, c.animation.length) + c.currentFrame + elapsed * c.Rate()
                 >= Scaled(c.MaxLoops(), c.animation.length)
  {
    var left := c.MaxLoops() - c.loopCounter;
    ReachedNotNegative(c, elapsed);
    WrapsAtLeast(Reached(c, elapsed), left, c.animation.length);
    ScaledAdds(c.loopCounter, left, c.animation.length);
  }

  /** The wraps of two ticks are the wraps of one, and what is left is the same. */
  lemma WrapsSplit(c: Context, a: real, b: real, step: real)
    requires c.Playable() && !c.Freezes() && c.Steady() && a >= 0.0 && b >= 0.0 && step == b * c.Rate()
    ensures var length := c.animation.length;
            var first := Wraps(Reached(c, a), length);
            var left := Reached(c, a) - Scaled(first, length);
            var second := Wraps(left + step, length);
            var all := Wraps(Reached(c, a + b), length);
            && step >= 0.0
            && all == first + second
            && left + step - Scaled(second, length) == Reached(c, a + b) - Scaled(all, length)
  {
    hide Wraps, Scaled, Context.Rate;
    var length := c.animation.length;
    ReachedNotNegative(c, a);
    RateSplits(c, a, b);
    RatePositive(c);
    MulMonotone(0.0, b, c.Rate());
    WrapsRemainder(Reached(c, a), length);
    WrapsAdd(Reached(c, a), step, length);
    var first := Wraps(Reached(c, a), length);
    ScaledAdds(first, Wraps(Reached(c, a) - Scaled(first, length) + step, length), length);
  }

  lemma OneWrapAtEnd(length: real, more: real)
    requires length > 0.0 && more >= 0.0
    ensures Wraps(length + more, length) >= 1
  {
    WrapsAtLeast(length + more, 1, length);
    assert Scaled(1, length) == length;
  }

  /** A tick field by field. */
  lemma AdvancedForm(c: Context, elapsed: real, x: real, loops: nat)
    requires c.Playable() && !c.Freezes() && x == Reached(c, elapsed)
    requires loops == c.loopCounter + Wraps(x, c.animation.length)
    ensures var c' := Advanced(c, elapsed);
            var done := c.MaxLoops() != 0 && loops >= c.MaxLoops();
            && c'.animation == c.animation && c'.loopParams == c.loopParams && c'.transitionParams == c.transitionParams
            && c'.totalLifeTime == c.totalLifeTime + elapsed && c'.loopCounter == loops
            && (c'.completed <==> c.completed || done)
            && c'.currentFrame == if done then c.animation.length
                                  else x - Scaled(Wraps(x, c.animation.length), c.animation.length)
  {
    hide Wraps, Scaled, Reached;
  }

  /** One tick of `a + b` does what a tick of `a` and then one of `b` do. */
  lemma SplitTick(c: Context, a: real, b: real)
    requires c.Playable() && c.Steady() && a >= 0.0 && b >= 0.0
    ensures Advanced(c, a).Playable() && Alike(Advanced(Advanced(c, a), b), Advanced(c, a + b))
  {
    AdvancedSteady(c, a);
    if !c.Freezes() {
      SplitPlaying(c, a, b, b * c.Rate());
    }
  }

  lemma SplitPlaying(c: Context, a: real, b: real, step: real)
    requires c.Playable() && !c.Freezes() && c.Steady() && a >= 0.0 && b >= 0.0 && step == b * c.Rate()
    requires Advanced(c, a).Playable() && Advanced(c, a).Steady()
    ensures Alike(Advanced(Advanced(c, a), b), Advanced(c, a + b))
  {
    var length := c.animation.length;
    var mid := Advanced(c, a);
    hide Wraps, Scaled, Advanced, Reached, Context.Rate;
    var x, z := Reached(c, a), Reached(c, a + b);
    var y := mid.currentFrame + step;
    WrapsSplit(c, a, b, step);
    OneWrapAtEnd(length, step);
    AdvancedForm(c, a, x, c.loopCounter + Wraps(x, length));
    AdvancedForm(c, a + b, z, c.loopCounter + Wraps(z, length));
    ReachedAgain(c, mid, b, step);
    AdvancedForm(mid, b, y, mid.loopCounter + Wraps(y, length));
    assert mid.MaxLoops() == c.MaxLoops();
  }

  lemma ReachedAgain(c: Context, mid: Context, b: real, step: real)
    requires c.Playable() && !c.Freezes() && mid.animation == c.animation && mid.loopParams == c.loopParams
    requires step == b * c.Rate()
    ensures mid.Playable() && !mid.Freezes() && Reached(mid, b) == mid.currentFrame + step
  {
    SameRate(c, mid);
    MulSame(b, b, mid.Rate(), c.Rate());
  }

  lemma SameRate(c: Context, d: Context)
    requires c.Playable() && !c.Freezes() && d.animation == c.animation && d.loopParams == c.loopParams
    ensures d.Playable() && !d.Freezes() && d.Rate() == c.Rate() && d.MaxLoops() == c.MaxLoops()
  {
  }

  function Ticked(c: Context, ticks: seq<real>): Context
    requires c.Playable()
    decreases |ticks|
  {
    if ticks == [] then c else Ticked(Advanced(c, ticks[0]), ticks[1..])
  }

  function Sum(ticks: seq<real>): real { if ticks == [] then 0.0 else ticks[0] + Sum(ticks[1..]) }

  lemma {:induction false} SumNotNegative(ticks: seq<real>)
    requires forall i :: 0 <= i < |ticks| ==> ticks[i] >= 0.0
    ensures Sum(ticks) >= 0.0
    decreases |ticks|
  {
    if ticks != [] {
      SumNotNegative(ticks[1..]);
    }
  }

  /** Playback is independent of tick splitting: any cut of a stretch of time shows what one tick over it shows. */
  lemma {:induction false} TicksDoNotMatter(c: Context, ticks: seq<real>)
    requires c.Playable() && c.Steady() && ticks != []
    requires forall i :: 0 <= i < |ticks| ==> ticks[i] >= 0.0
    ensures Alike(Ticked(c, ticks), Advanced(c, Sum(ticks)))
    decreases |ticks|
  {
    hide Alike, Advanced, Context.Steady, Context.Playable;
    var c' := Advanced(c, ticks[0]);
    AdvancedSteady(c, ticks[0]);
    if |ticks| == 1 {
      AlikeSelf(c');
    } else {
      TicksDoNotMatter(c', ticks[1..]);
      SumNotNegative(ticks[1..]);
      SplitTick(c, ticks[0], Sum(ticks[1..]));
      AlikeTrans(Ticked(c', ticks[1..]), Advanced(c', Sum(ticks[1..])), Advanced(c, Sum(ticks)));
    }
  }

  lemma AlikeSelf(a: Context)
    ensures Alike(a, a)
  {
  }

  lemma AlikeTrans(a: Context, b: Context, c: Context)
    requires Alike(a, b) && Alike(b, c)
    ensures Alike(a, c)
  {
  }
}
