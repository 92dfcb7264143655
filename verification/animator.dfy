/**
 One slot's layer: the clip it stands on and, while one runs, the crossfade into it. The slot's clip and the blend's
 incoming side are two copies that step together, so when the blend is dropped nothing jumps.
 */
module Animator {
  import opened Wrappers
  import opened Reals
  import opened Playback
  import opened Crossfade

  const DEFAULT_TRANSITION: real := 7.5
  const IN_STEP_MIN_SPAN: real := 0.001

  /** Slot 5 takes every request outright. */
  const OUTRIGHT_SLOT: nat := 5

  function Span(clip: Clip): real
    requires clip.keyRate > 0.0
  {
    clip.numFrames as real / clip.keyRate
  }

  /** The Euclidean remainder. */
  function Remainder(x: real, m: real): real
    requires m > 0.0
  {
    x - (x / m).Floor as real * m
  }

  lemma RemainderInRange(x: real, m: real)
    requires m > 0.0
    ensures 0.0 <= Remainder(x, m) < m
  {
    DivMul(x, m);
    Leftover(x, m, x / m, (x / m).Floor as real);
  }

  lemma Leftover(x: real, m: real, q: real, n: real)
    requires m > 0.0 && q * m == x && n <= q < n + 1.0
    ensures 0.0 <= x - n * m < m
  {
    ProductNotNegative(q - n, m, x - n * m);
    ProductPositive(n + 1.0 - q, m, n * m + m - x);
  }

  lemma FractionInUnit(part: real, whole: real, t: real)
    requires 0.0 <= part < whole && t == part / whole
    ensures 0.0 <= t < 1.0
  {
    DivMul(part, whole);
    if t < 0.0 {
      ProductPositive(-t, whole, -part);
    } else if t >= 1.0 {
      ProductNotNegative(t - 1.0, whole, part - whole);
    }
  }

  /** The outgoing key position and the keys the incoming clip plays over the blend, scaled. */
  function ScaledKeys(outgoing: Context, incoming: Clip, blendFrames: real, ratio: real): real {
    (outgoing.currentFrame * outgoing.animation.keyRate + incoming.keyRate * blendFrames) * ratio
  }

  /** Where a clip requested in step starts, read as a playhead. */
  function InStepStart(outgoing: Context, incoming: Clip, blendFrames: real): real
    requires outgoing.animation.keyRate > 0.0 && incoming.keyRate > 0.0
  {
    var from, into := Span(outgoing.animation), Span(incoming);
    if !(from > IN_STEP_MIN_SPAN && into > 0.0) then 0.0
    else Remainder(ScaledKeys(outgoing, incoming, blendFrames, into / from), into)
  }

  /** An in-step start lies in the incoming clip's span, not always within its length. */
  lemma InStepStartInSpan(outgoing: Context, incoming: Clip, blendFrames: real)
    requires outgoing.animation.keyRate > 0.0 && incoming.keyRate > 0.0
    ensures var start := InStepStart(outgoing, incoming, blendFrames);
            0.0 <= start && (start > 0.0 ==> start < Span(incoming))
  {
    hide Remainder, Span, ScaledKeys;
    var from, into := Span(outgoing.animation), Span(incoming);
    if from > IN_STEP_MIN_SPAN && into > 0.0 {
      RemainderInRange(ScaledKeys(outgoing, incoming, blendFrames, into / from), into);
    }
  }

  /**
   A clip requested in step starts, but for whole turns of its span, as far into it as the outgoing key position and the
   keys of the blend come to in the outgoing span; spans are frame counts over key rates. Behind a clip of a thousandth
   of a frame or less, or for one without frames, it starts at zero.
   */
  lemma InStepKeepsPhase(outgoing: Context, incoming: Clip, blendFrames: real) returns (turns: int)
    requires outgoing.animation.keyRate > 0.0 && incoming.keyRate > 0.0
    ensures var (from, into) := (outgoing.animation.numFrames as real / outgoing.animation.keyRate,
                                 incoming.numFrames as real / incoming.keyRate);
            var keys := outgoing.currentFrame * outgoing.animation.keyRate + incoming.keyRate * blendFrames;
            var start := InStepStart(outgoing, incoming, blendFrames);
            if from > 0.001 && into > 0.0 then
              0.0 <= start < into && start + turns as real * into == keys * (into / from)
            else start == 0.0
  {
    hide Remainder;
    turns := 0;
    var from, into := Span(outgoing.animation), Span(incoming);
    if from > 0.001 && into > 0.0 {
      turns := RemainderTurns(ScaledKeys(outgoing, incoming, blendFrames, into / from), into);
      RemainderInRange(ScaledKeys(outgoing, incoming, blendFrames, into / from), into);
    }
  }

  /** A remainder is its number less whole turns. */
  lemma RemainderTurns(x: real, m: real) returns (turns: int)
    requires m > 0.0
    ensures Remainder(x, m) + turns as real * m == x
  {
    turns := (x / m).Floor;
  }

  /** Clips as they are loaded: a length, and a key rate. */
  predicate Sane(c: Context) { c.Playable() && c.animation.keyRate > 0.0 }

  /** A requested handover takes no time. */
  predicate Immediate(params: Option<TransitionParams>) { params.Some? && params.value.inTime == 0.0 }

  /** How long the blend into a request runs: its own in time, else what it replaces's out time, else the default. */
  function BlendTime(current: Context, params: Option<TransitionParams>): real {
    if params.Some? then params.value.inTime
    else if current.transitionParams.Some? && current.transitionParams.value.outTime > 0.0 then
      current.transitionParams.value.outTime
    else DEFAULT_TRANSITION
  }

  /** The blend's time in the source's own terms: seven and a half frames when neither side names any. */
  lemma BlendTimeIs(current: Context, params: Option<TransitionParams>)
    ensures params.Some? ==> BlendTime(current, params) == params.value.inTime
    ensures params.None? && current.transitionParams.Some? && current.transitionParams.value.outTime > 0.0 ==>
              BlendTime(current, params) == current.transitionParams.value.outTime
    ensures params.None? && (current.transitionParams.None? || current.transitionParams.value.outTime <= 0.0) ==>
              BlendTime(current, params) == 7.5
  {
  }

  predicate InStep(current: Context, params: Option<TransitionParams>) {
    if params.Some? then params.value.inStep
    else current.transitionParams.Some? && current.transitionParams.value.inStep
  }

  /** The same low-priority clip asked for again: the slot keeps what it plays. */
  predicate Repeats(current: Context, requested: Context) {
    current.animation.id == requested.animation.id && current.loopParams.lowPriority
  }

  /** The pose a turn toward the target is measured from. */
  function FacingPose(current: Context, params: Option<TransitionParams>): Option<Snapshot> {
    if params.Some? && params.value.turnTowardTarget then
      Some(if params.value.facing.Some? then params.value.facing.value else SnapshotOf(current))
    else None
  }

  /** The requested clip as it enters the slot. */
  function Entering(current: Context, requested: Context, params: Option<TransitionParams>): Context
    requires Sane(current) && Sane(requested)
  {
    if InStep(current, params) then
      requested.(currentFrame := InStepStart(current, requested.animation, BlendTime(current, params)))
    else requested
  }

  /** However a request enters its slot, its run starts steady. */
  lemma EntersSteady(current: Context, requested: Context, params: Option<TransitionParams>)
    requires Sane(current) && Sane(requested) && requested.IsNew() && requested.currentFrame >= 0.0
    ensures Sane(Entering(current, requested, params)) && Entering(current, requested, params).Steady()
  {
    hide InStepStart;
    InStepStartInSpan(current, requested.animation, BlendTime(current, params));
  }

  /** A settled clip enters within its length. */
  lemma SettledWithinLength(animation: Clip, loopParams: LoopParams, startFrame: real)
    requires animation.length > 0.0
    ensures 0.0 <= Settled(animation, loopParams, startFrame).currentFrame < animation.length
    ensures Settled(animation, loopParams, startFrame).Steady()
  {
    RemainderInRange(startFrame, animation.length);
  }

  /** A settled clip enters at the frame asked for, but for whole lengths. */
  lemma SettledAtFrame(animation: Clip, loopParams: LoopParams, startFrame: real) returns (turns: int)
    requires animation.length > 0.0
    ensures Settled(animation, loopParams, startFrame).currentFrame + turns as real * animation.length == startFrame
  {
    turns := RemainderTurns(startFrame, animation.length);
  }

  /** A settling clip, entering where the caller matched it to the frozen pose. */
  function Settled(animation: Clip, loopParams: LoopParams, startFrame: real): Context
    requires animation.length > 0.0
  {
    NewContext(animation, loopParams, None).(currentFrame := Remainder(startFrame, animation.length))
  }

  /** A copy of a freshly requested clip with its counters at zero, starting where the request put its playhead. */
  function FreshCopy(c: Context): Context {
    NewContext(c.animation, c.loopParams, c.transitionParams).(currentFrame := c.currentFrame)
  }

  // ---- a layer by value ------------------------------------------------------------------------------------------

  datatype LayerView = LayerView(current: Option<Context>, blend: Option<BlendView>)
  {
    predicate Playable() {
      && (current.Some? ==> Sane(current.value))
      && (blend.Some? ==> current.Some? && blend.value.Playable())
    }
  }

  /** A layer after a tick; a blend whose time is up is dropped. */
  function Stepped(l: LayerView, elapsed: real): LayerView
    requires l.Playable()
  {
    LayerView(if l.current.Some? then Some(Advanced(l.current.value, elapsed)) else None,
              if l.blend.Some? && l.blend.value.progress + elapsed < l.blend.value.duration
              then Some(BlendAdvanced(l.blend.value, elapsed)) else None)
  }

  /** A layer once a request is let in; `still` is the composite on screen, for a blend it interrupts. */
  function Requested(slot: nat, l: LayerView, requested: Context, params: Option<TransitionParams>,
                     still: Snapshot): LayerView
    requires l.Playable() && Sane(requested)
  {
    if l.current.None? || Immediate(params) then LayerView(Some(requested), None)
    else if Repeats(l.current.value, requested) then l
    else
      var current := l.current.value;
      var entering := Entering(current, requested, params);
      LayerView(Some(entering),
                if slot == OUTRIGHT_SLOT then l.blend
                else Some(BlendView(if l.blend.Some? then FrozenSide(still) else LiveSide(current), FreshCopy(entering),
                                    BlendTime(current, params), 0.0, FacingPose(current, params))))
  }

  /** A layer once a stop is let in: what was on screen is frozen, and fades if there is time and something to fade. */
  function Stopped(slot: nat, l: LayerView, animation: Clip, loopParams: LoopParams, startFrame: real, fadeFrames: real,
                   still: Snapshot): LayerView
    requires l.Playable() && animation.length > 0.0
  {
    var settled := Settled(animation, loopParams, startFrame);
    LayerView(Some(settled),
              if l.current.None? || fadeFrames <= 0.0 || slot == OUTRIGHT_SLOT then None
              else Some(BlendView(FrozenSide(if l.blend.Some? then still else SnapshotOf(l.current.value)),
                                  FreshCopy(settled), fadeFrames, 0.0, None)))
  }

  /**
   A request, case by case. It replaces an empty layer, and any layer when it allows no time; it leaves alone a
   low-priority clip it repeats; slot 5 takes the clip and keeps its blend; any other slot blends into it, from the
   composite on screen if a blend was running and from the playing clip if not, facing a pose only to turn to a target.
   */
  lemma RequestedCases(slot: nat, l: LayerView, requested: Context, params: Option<TransitionParams>, still: Snapshot)
    requires l.Playable() && Sane(requested)
    ensures var after := Requested(slot, l, requested, params, still);
            if l.current.None? || (params.Some? && params.value.inTime == 0.0) then
              after == LayerView(Some(requested), None)
            else
              var current := l.current.value;
              if current.animation.id == requested.animation.id && current.loopParams.lowPriority then after == l
              else
                && after.current.Some? && after.current.value.(currentFrame := requested.currentFrame) == requested
                && (slot == 5 ==> after.blend == l.blend)
                && (slot != 5 ==>
                      && after.blend.Some?
                      && var b := after.blend.value;
                         && b.progress == 0.0
                         && b.previous == (if l.blend.Some? then FrozenSide(still) else LiveSide(current))
                         && b.next.animation == requested.animation
                         && b.next.currentFrame == after.current.value.currentFrame
                         && (b.facing.Some? <==> params.Some? && params.value.turnTowardTarget)
                         && (b.facing.Some? && params.value.facing.Some? ==> b.facing == params.value.facing)
                         && (b.facing.Some? && params.value.facing.None? ==>
                               forall joint :: Lookup(b.facing.value, joint) == current.At(joint)))
  {
    hide InStepStart, BlendTime;
  }

  /** The clip enters at its own frame unless the request, or without one the playing clip, asks to go in step. */
  lemma EntersInStep(current: Context, requested: Context, params: Option<TransitionParams>)
    requires Sane(current) && Sane(requested)
    ensures var inStep := if params.Some? then params.value.inStep
                          else current.transitionParams.Some? && current.transitionParams.value.inStep;
            Entering(current, requested, params).currentFrame
            == if inStep then InStepStart(current, requested.animation, BlendTime(current, params))
               else requested.currentFrame
  {
    hide InStepStart, BlendTime;
  }

  /** A stop fades out of the frozen pose unless there is nothing to fade from, no time to fade in, or the slot is 5. */
  lemma StoppedCases(slot: nat, l: LayerView, animation: Clip, loopParams: LoopParams, startFrame: real,
                     fadeFrames: real, still: Snapshot)
    requires l.Playable() && animation.length > 0.0
    ensures var after := Stopped(slot, l, animation, loopParams, startFrame, fadeFrames, still);
            && after.current.Some? && after.current.value.animation == animation
            && (after.blend.None? <==> l.current.None? || fadeFrames <= 0.0 || slot == 5)
            && (after.blend.Some? ==>
                  var b := after.blend.value;
                  && b.progress == 0.0 && b.duration == fadeFrames && b.facing.None?
                  && b.previous.FrozenSide? && (l.blend.Some? ==> b.previous == FrozenSide(still))
                  && (l.blend.None? ==>
                        forall joint :: Lookup(b.previous.snapshot, joint) == l.current.value.At(joint)))
  {
    hide Remainder;
  }

  class SkeletonAnimator {
    const animationSlot: nat
    const near: Nearness
    var current: SkeletonAnimationContext?
    var transition: AnimationTransition?

    constructor (slot: nat, near: Nearness)
      ensures Valid() && animationSlot == slot && current == null && transition == null
    {
      animationSlot, this.near := slot, near;
      current, transition := null, null;
    }

    function Repr(): set<object>
      reads this
    {
      {this} + (if current == null then {} else {current})
      + (if transition == null then {} else transition.Footprint())
    }

    /**
     A live blend is never slot 5's and has run for less than its time; one asked for in negative time has not run, and
     ends with the next tick.
     */
    ghost predicate Valid()
      reads this, Repr()
    {
      && (current != null ==> Sane(current.View()))
      && (transition != null ==>
            && animationSlot != OUTRIGHT_SLOT
            && current != null && current !in transition.Footprint()
            && this !in transition.Footprint()
            && transition.Valid()
            && (transition.progress < transition.transitionDuration
                || (transition.transitionDuration < 0.0 && transition.progress == 0.0)))
    }

    /** A live blend's incoming side equals the slot's clip in every field. */
    ghost predicate Twins()
      requires Valid()
      reads this, Repr()
    {
      transition != null ==> transition.next.View() == current.View()
    }

    function View(): (l: LayerView)
      requires Valid()
      reads this, Repr()
      ensures l.Playable()
    {
      LayerView(if current == null then None else Some(current.View()),
                if transition == null then None else Some(transition.View()))
    }

    /** The composite a running blend shows. */
    function Still(): Snapshot
      requires Valid()
      reads this, Repr()
    {
      if transition == null then map[] else transition.Snapshot()
    }

    /** What this layer writes for a bone; a bone that refuses blends keeps the outgoing side while one runs. */
    function Sample(joint: nat, blendAllowed: bool): Option<Transform>
      requires Valid()
      reads this, Repr()
    {
      if transition != null then
        if blendAllowed then transition.At(joint) else transition.Outgoing(joint)
      else if current != null then current.View().At(joint)
      else None
    }

    /**
     A bone that refuses blends shows the outgoing side as long as one runs: the still's record, or the outgoing clip's
     own at its own playhead.
     */
    lemma RefusedKeepsOutgoing(joint: nat)
      requires Valid() && transition != null
      ensures Sample(joint, false)
              == match View().blend.value.previous
                 case FrozenSide(still) => if joint in still then Some(still[joint]) else None
                 case LiveSide(c) =>
                   if joint in c.animation.keyed then Some(c.animation.record(joint, c.currentFrame)) else None
    {
    }

    /**
     At every point of a live blend a bone both sides key is drawn between them in translation and scale, and a bone
     one side keys is that side's.
     */
    lemma BlendStaysBetween(joint: nat)
      requires Valid() && transition != null
      ensures var outgoing, incoming := transition.Outgoing(joint), transition.Incoming(joint);
              var shown := Sample(joint, true);
              && (incoming.None? ==> shown == outgoing)
              && (outgoing.None? ==> shown == incoming)
              && (outgoing.Some? && incoming.Some? ==>
                    && shown.Some?
                    && BetweenVec(shown.value.translation, outgoing.value.translation, incoming.value.translation)
                    && BetweenVec(shown.value.scale, outgoing.value.scale, incoming.value.scale))
    {
      hide BetweenVec, Merge;
      var t := transition.progress / transition.transitionDuration;
      if transition.transitionDuration < 0.0 {
        assert t == 0.0;
      } else {
        FractionInUnit(transition.progress, transition.transitionDuration, t);
      }
      MergeStaysBetween(transition.Outgoing(joint), transition.Incoming(joint), transition.ArcAt(joint),
                        transition.FacingAt(joint), transition.near, t);
    }

    /**
     A tick. A blend goes on exactly while its time is not up; when it is dropped, every bone the slot's clip keys is
     sampled where the blend's incoming side stood this very tick.
     */
    method Update(elapsed: real)
      requires Valid() && elapsed >= 0.0
      modifies Repr()
      ensures Valid() && Repr() <= old(Repr()) && current == old(current)
      ensures View() == Stepped(old(View()), elapsed)
      ensures current != null ==> current.View() == Advanced(old(current.View()), elapsed)
      ensures old(transition) == null ==> transition == null
      ensures old(transition) != null ==>
                var left := old(transition.transitionDuration) - old(transition.progress);
                && (transition == null <==> elapsed >= left)
                && (transition != null ==> transition == old(transition)
                                           && transition.progress == old(transition.progress) + elapsed)
                && (transition == null && old(Twins()) ==>
                      var incoming := Advanced(old(transition.next.View()), elapsed);
                      forall joint, blendAllowed :: Sample(joint, blendAllowed) == incoming.At(joint))
      ensures old(Twins()) ==> Twins()
      ensures transition != null && transition.previous.Frozen? ==>
                forall joint :: Sample(joint, false) == old(Sample(joint, false))
    {
      if transition != null {
        var complete := transition.Update(elapsed);
        if complete {
          transition := null;
        }
      }
      if current != null {
        current.Advance(elapsed);
      }
    }

    /** A blend from a chosen outgoing side into a copy of the entering clip. */
    method StartBlend(previous: PreviousSide, entering: Context, duration: real, facing: Option<Snapshot>)
      requires entering.Playable() && duration != 0.0 && (previous.Live? ==> previous.ctx.View().Playable())
      modifies this`transition
      ensures transition != null && fresh(transition) && fresh(transition.next) && transition.Valid()
      ensures transition.previous == previous && transition.facing == facing && transition.progress == 0.0
      ensures transition.arcs == []
      ensures transition.transitionDuration == duration && transition.next.View() == FreshCopy(entering)
    {
      var next := new SkeletonAnimationContext.Clone(FreshCopy(entering));
      transition := new AnimationTransition(previous, next, duration, facing, near);
    }

    /** A blend out of what is on screen: the composite frozen if a blend was running, the playing clip if not. */
    method BlendFromScreen(entering: Context, duration: real, facing: Option<Snapshot>)
      requires Valid() && current != null && entering.Playable() && duration != 0.0
      modifies this`transition
      ensures transition != null && transition.Valid() && forall o :: o in transition.Footprint() ==> fresh(o)
      ensures transition.View()
              == BlendView(if old(transition) != null then FrozenSide(old(Still())) else LiveSide(current.View()),
                           FreshCopy(entering), duration, 0.0, facing)
      ensures forall joint :: transition.Outgoing(joint) == old(Sample(joint, true))
    {
      hide Merge;
      var previous: PreviousSide;
      if transition != null {
        previous := Frozen(transition.Snapshot());
      } else {
        var outgoing := new SkeletonAnimationContext.Clone(current.View());
        previous := Live(outgoing);
      }
      StartBlend(previous, entering, duration, facing);
    }

    /**
     A request with a new clip. Into an empty slot, or with no time to blend in, it replaces outright. A repeat of a
     low-priority clip is dropped. Otherwise the clip enters the slot, and except in slot 5 a blend starts from what
     was on screen: the composite frozen if a blend was running, the playing clip if not.
     */
    method SetNextAnimation(ctx: SkeletonAnimationContext, params: Option<TransitionParams>)
      requires Valid() && ctx !in Repr() && Sane(ctx.View())
      modifies this, ctx
      ensures Valid()
      ensures forall o :: o in Repr() ==> o in old(Repr()) || o == ctx || fresh(o)
      ensures View() == Requested(animationSlot, old(View()), old(ctx.View()), params, old(Still()))
      ensures current == ctx ==> (Twins() <==> transition == null || old(ctx.View()).IsNew())
      ensures current != ctx ==> (Twins() <==> old(Twins()))
      ensures old(current) == null || Immediate(params) ==>
                current == ctx && transition == null && ctx.View() == old(ctx.View())
      ensures old(current) != null && !Immediate(params) && Repeats(old(current.View()), old(ctx.View())) ==>
                current == old(current) && transition == old(transition)
      ensures old(current) != null && !Immediate(params) && !Repeats(old(current.View()), old(ctx.View())) ==>
                && current == ctx
                && ctx.View() == Entering(old(current.View()), old(ctx.View()), params)
                && (transition == null <==> animationSlot == OUTRIGHT_SLOT)
                && (transition != null ==>
                      && transition.progress == 0.0
                      && transition.transitionDuration == BlendTime(old(current.View()), params)
                      && transition.facing == FacingPose(old(current.View()), params)
                      && forall joint :: transition.Outgoing(joint) == old(Sample(joint, true)))
    {
      hide InStepStart, Remainder, SnapshotOf, Merge, Span;
      if current == null || Immediate(params) {
        transition := null;
        current := ctx;
        return;
      }
      if Repeats(current.View(), ctx.View()) {
        return;
      }
      var transitionDuration := BlendTime(current.View(), params);
      if InStep(current.View(), params) {
        ctx.currentFrame := InStepStart(current.View(), ctx.animation, transitionDuration);
      }
      if animationSlot != OUTRIGHT_SLOT {
        BlendFromScreen(ctx.View(), transitionDuration, FacingPose(current.View(), params));
      }
      current := ctx;
    }

    /**
     A handover that settles: the outgoing pose is frozen where it stands, the clip enters at a chosen frame, and no
     time to fade or slot 5 means no blend.
     */
    method SetSettledAnimation(animation: Clip, loopParams: LoopParams, startFrame: real, fadeFrames: real)
      requires Valid() && Sane(NewContext(animation, loopParams, None))
      modifies this
      ensures Valid() && current != null && fresh(current)
      ensures forall o :: o in Repr() ==> o in old(Repr()) || fresh(o)
      ensures Twins()
      ensures View() == Stopped(animationSlot, old(View()), animation, loopParams, startFrame, fadeFrames, old(Still()))
      ensures current.View() == Settled(animation, loopParams, startFrame)
      ensures transition == null <==> old(current) == null || fadeFrames <= 0.0 || animationSlot == OUTRIGHT_SLOT
      ensures transition != null ==>
                && transition.progress == 0.0 && transition.transitionDuration == fadeFrames
                && transition.facing == None && transition.previous.Frozen?
                && forall joint :: transition.Outgoing(joint) == old(Sample(joint, true))
    {
      var ctx := new SkeletonAnimationContext(animation, loopParams, None);
      ctx.currentFrame := Remainder(startFrame, animation.length);
      if current == null || fadeFrames <= 0.0 || animationSlot == OUTRIGHT_SLOT {
        transition := null;
        current := ctx;
        return;
      }
      var previous: PreviousSide;
      if transition != null {
        previous := Frozen(transition.Snapshot());
      } else {
        previous := Frozen(SnapshotOf(current.View()));
      }
      StartBlend(previous, ctx.View(), fadeFrames, None);
      current := ctx;
    }
  }
}
