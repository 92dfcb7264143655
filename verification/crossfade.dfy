/**
 A crossfade between two clips: both sides keep playing under it, and each bone's two quaternions are held on the side
 of the sphere they stood on the tick before, so that the blend never changes its way round.
 */
module Crossfade {
  import opened Wrappers
  import opened Matrix
  import opened Reals
  import opened Playback

  function Dot4(a: Quat, b: Quat): real { a.x * b.x + a.y * b.y + a.z * b.z + a.w * b.w }

  function Negated(q: Quat): Quat { Quat(-q.x, -q.y, -q.z, -q.w) }

  function OnSideOf(q: Quat, reference: Quat): Quat { if Dot4(q, reference) < 0.0 then Negated(q) else q }

  /** The same rotation: the quaternion or its negation. */
  predicate SameRotation(p: Quat, q: Quat) { p == q || p == Negated(q) }

  function Lerp(a: real, b: real, t: real): real {
    var inv := 1.0 - t;
    a * inv + b * t
  }

  function WeightedSum(a: Quat, b: Quat, t: real): Quat {
    Quat(Lerp(a.x, b.x, t), Lerp(a.y, b.y, t), Lerp(a.z, b.z, t), Lerp(a.w, b.w, t))
  }

  function Lerp3(a: Vec3, b: Vec3, t: real): Vec3 { Vec3(Lerp(a.x, b.x, t), Lerp(a.y, b.y, t), Lerp(a.z, b.z, t)) }

  /** How near a rotation stands to another: normalised, so it takes a square root. */
  type Nearness = (Quat, Quat) -> real

  datatype HeldArc = HeldArc(outgoing: Quat, incoming: Quat)

  function Lesser(a: real, b: real): real { if a < b then a else b }

  /** The way a merge sets out: the short way round, or the opposite one when that comes through the facing pose. */
  function SetOut(outgoing: Quat, incoming: Quat, facing: Option<Quat>, near: Nearness): HeldArc {
    var short := OnSideOf(incoming, outgoing);
    match facing
    case None => HeldArc(outgoing, short)
    case Some(face) =>
      var opposite := Negated(short);
      var shortMid := near(WeightedSum(outgoing, short, 0.5), face);
      var behindBoth := shortMid < Lesser(near(outgoing, face), near(incoming, face));
      var comesThrough := near(WeightedSum(outgoing, opposite, 0.5), face) > shortMid;
      HeldArc(outgoing, if behindBoth && comesThrough then opposite else short)
  }

  function Held(arc: HeldArc, outgoing: Quat, incoming: Quat): HeldArc {
    HeldArc(OnSideOf(outgoing, arc.outgoing), OnSideOf(incoming, arc.incoming))
  }

  function Rotation(arc: HeldArc, t: real): Quat {
    if t == 1.0 then arc.incoming else WeightedSum(arc.outgoing, arc.incoming, t)
  }

  /** The pair a merge takes this tick: the one it held, kept continuous, or a fresh one. */
  function ArcFor(held: Option<HeldArc>, outgoing: Quat, incoming: Quat, facing: Option<Quat>, near: Nearness): HeldArc
  {
    match held
    case Some(arc) => Held(arc, outgoing, incoming)
    case None => SetOut(outgoing, incoming, facing, near)
  }

  lemma DotNegated(q: Quat, reference: Quat)
    ensures Dot4(Negated(q), reference) == -Dot4(q, reference)
  {
  }

  lemma OnSideIsOnSide(q: Quat, reference: Quat)
    ensures Dot4(OnSideOf(q, reference), reference) >= 0.0 && SameRotation(OnSideOf(q, reference), q)
  {
    hide Dot4;
    DotNegated(q, reference);
  }

  lemma NegatedTwice(q: Quat)
    ensures Negated(Negated(q)) == q
  {
  }

  lemma ArcForHeld(arc: HeldArc, outgoing: Quat, incoming: Quat, facing: Option<Quat>, near: Nearness)
    ensures ArcFor(Some(arc), outgoing, incoming, facing, near) == Held(arc, outgoing, incoming)
  {
  }

  /** Whatever a merge holds is the sampled pair itself, each side up to its sign. */
  lemma ArcIsSampled(held: Option<HeldArc>, outgoing: Quat, incoming: Quat, facing: Option<Quat>, near: Nearness)
    ensures var arc := ArcFor(held, outgoing, incoming, facing, near);
            SameRotation(arc.outgoing, outgoing) && SameRotation(arc.incoming, incoming)
  {
    hide Dot4, WeightedSum;
    NegatedTwice(incoming);
  }

  /** From the second tick on, neither side of the held pair turns away from where it stood. */
  lemma ArcKeepsSides(arc: HeldArc, outgoing: Quat, incoming: Quat, facing: Option<Quat>, near: Nearness)
    ensures var next := ArcFor(Some(arc), outgoing, incoming, facing, near);
            Dot4(next.outgoing, arc.outgoing) >= 0.0 && Dot4(next.incoming, arc.incoming) >= 0.0
  {
    OnSideIsOnSide(outgoing, arc.outgoing);
    OnSideIsOnSide(incoming, arc.incoming);
  }

  /** With no pose to face, a merge sets out the short way round. */
  lemma SetsOutShort(outgoing: Quat, incoming: Quat, near: Nearness)
    ensures var arc := SetOut(outgoing, incoming, None, near);
            arc.outgoing == outgoing && Dot4(arc.incoming, arc.outgoing) >= 0.0
  {
    OnSideIsOnSide(incoming, outgoing);
  }

  lemma NormPositive(q: Quat, xx: real, yy: real, zz: real, ww: real)
    requires xx == q.x * q.x && yy == q.y * q.y && zz == q.z * q.z && ww == q.w * q.w
    ensures xx + yy + zz + ww >= 0.0 && (xx + yy + zz + ww == 0.0 ==> Negated(q) == q)
  {
    SquareNotNegative(q.x);
    SquareNotNegative(q.y);
    SquareNotNegative(q.z);
    SquareNotNegative(q.w);
    if q.x != 0.0 {
      SquarePositive(q.x, xx);
    }
    if q.y != 0.0 {
      SquarePositive(q.y, yy);
    }
    if q.z != 0.0 {
      SquarePositive(q.z, zz);
    }
    if q.w != 0.0 {
      SquarePositive(q.w, ww);
    }
  }

  lemma SquareNorm(q: Quat)
    ensures Dot4(q, q) >= 0.0 && (Dot4(q, q) == 0.0 ==> Negated(q) == q)
  {
    hide Negated;
    NormPositive(q, q.x * q.x, q.y * q.y, q.z * q.z, q.w * q.w);
  }

  lemma OnOwnSide(q: Quat, held: Quat)
    requires SameRotation(held, q)
    ensures OnSideOf(q, held) == held
  {
    hide Dot4;
    SquareNorm(q);
    DotNegated(q, q);
    DotSwapped(q, held);
  }

  lemma DotSwapped(p: Quat, q: Quat)
    ensures Dot4(p, q) == Dot4(q, p)
  {
  }

  /** Taking the pair again on the poses it was just taken on changes nothing. */
  lemma HeldAgain(arc: HeldArc, outgoing: Quat, incoming: Quat)
    requires SameRotation(arc.outgoing, outgoing) && SameRotation(arc.incoming, incoming)
    ensures Held(arc, outgoing, incoming) == arc
  {
    OnOwnSide(outgoing, arc.outgoing);
    OnOwnSide(incoming, arc.incoming);
  }

  datatype Sampled = Sampled(outgoing: Quat, incoming: Quat)

  /** The pairs one bone's merge holds over a run of ticks. */
  function ArcRun(samples: seq<Sampled>, facing: Option<Quat>, near: Nearness): (arcs: seq<HeldArc>)
    ensures |arcs| == |samples|
    decreases |samples|
  {
    if samples == [] then []
    else
      var before := ArcRun(samples[..|samples| - 1], facing, near);
      var last := samples[|samples| - 1];
      before + [ArcFor(if before == [] then None else Some(before[|before| - 1]), last.outgoing, last.incoming, facing,
                       near)]
  }

  /** Throughout a crossfade the held pair is the sampled one up to sign and never changes side between two ticks. */
  lemma {:induction false} HeldPairNeverChangesSide(samples: seq<Sampled>, facing: Option<Quat>, near: Nearness, k: nat)
    requires k < |samples|
    ensures var arcs := ArcRun(samples, facing, near);
            && SameRotation(arcs[k].outgoing, samples[k].outgoing)
            && SameRotation(arcs[k].incoming, samples[k].incoming)
            && (k > 0 ==> Dot4(arcs[k].outgoing, arcs[k - 1].outgoing) >= 0.0)
            && (k > 0 ==> Dot4(arcs[k].incoming, arcs[k - 1].incoming) >= 0.0)
    decreases |samples|
  {
    hide Dot4, ArcFor, SameRotation;
    var front := samples[..|samples| - 1];
    if k < |front| {
      HeldPairNeverChangesSide(front, facing, near, k);
    } else {
      var before := ArcRun(front, facing, near);
      var held := if before == [] then None else Some(before[|before| - 1]);
      ArcIsSampled(held, samples[k].outgoing, samples[k].incoming, facing, near);
      if k > 0 {
        ArcKeepsSides(before[k - 1], samples[k].outgoing, samples[k].incoming, facing, near);
      }
    }
  }

  predicate Between(x: real, a: real, b: real) { (a <= x <= b) || (b <= x <= a) }

  lemma LerpBetween(a: real, b: real, t: real)
    requires 0.0 <= t <= 1.0
    ensures Between(Lerp(a, b, t), a, b)
  {
    if a <= b {
      LerpOrdered(a, b, t, 1.0 - t, Lerp(a, b, t));
    } else {
      LerpOrdered(b, a, 1.0 - t, t, Lerp(a, b, t));
    }
  }

  lemma LerpOrdered(a: real, b: real, t: real, inv: real, x: real)
    requires a <= b && t >= 0.0 && inv >= 0.0 && inv == 1.0 - t && x == a * inv + b * t
    ensures a <= x <= b
  {
    ProductNotNegative(b - a, t, x - a);
    ProductNotNegative(b - a, inv, b - x);
  }

  // ---- the transition ---------------------------------------------------------------------------------------------

  /** The outgoing side: a clip that keeps playing, or the still that was on screen when a blend was interrupted. */
  datatype PreviousSide = Live(ctx: SkeletonAnimationContext) | Frozen(snapshot: Snapshot)

  function SnapshotOf(c: Context): Snapshot {
    map joint | joint in c.animation.keyed :: c.animation.record(joint, c.currentFrame)
  }

  function Lookup(s: Snapshot, joint: nat): Option<Transform> { if joint in s then Some(s[joint]) else None }

  /** One weighted sum of two records along the held pair. */
  function Blend(outgoing: Transform, incoming: Transform, arc: HeldArc, t: real): Transform {
    Transform(Rotation(arc, t), Lerp3(outgoing.translation, incoming.translation, t),
              Lerp3(outgoing.scale, incoming.scale, t))
  }

  /** The blend of two sides; a bone one side alone keys is that side's outright. */
  function Merge(outgoing: Option<Transform>, incoming: Option<Transform>, held: Option<HeldArc>, facing: Option<Quat>,
                 near: Nearness, t: real): Option<Transform>
  {
    match (outgoing, incoming)
    case (Some(o), Some(i)) => Some(Blend(o, i, ArcFor(held, o.rotation, i.rotation, facing, near), t))
    case (only, None) => only
    case (None, only) => only
  }

  predicate BetweenVec(v: Vec3, a: Vec3, b: Vec3) {
    Between(v.x, a.x, b.x) && Between(v.y, a.y, b.y) && Between(v.z, a.z, b.z)
  }

  lemma LerpVecBetween(a: Vec3, b: Vec3, t: real)
    requires 0.0 <= t <= 1.0
    ensures BetweenVec(Lerp3(a, b, t), a, b)
  {
    hide Between, Lerp;
    LerpBetween(a.x, b.x, t);
    LerpBetween(a.y, b.y, t);
    LerpBetween(a.z, b.z, t);
  }

  /** Mid-blend, translation and scale lie between the sides'; a bone one side alone keys takes that side verbatim. */
  lemma MergeStaysBetween(outgoing: Option<Transform>, incoming: Option<Transform>, held: Option<HeldArc>,
                          facing: Option<Quat>, near: Nearness, t: real)
    requires 0.0 <= t <= 1.0
    ensures var merged := Merge(outgoing, incoming, held, facing, near, t);
            && (incoming.None? ==> merged == outgoing)
            && (outgoing.None? ==> merged == incoming)
            && (outgoing.Some? && incoming.Some? ==>
                  && merged.Some?
                  && BetweenVec(merged.value.translation, outgoing.value.translation, incoming.value.translation)
                  && BetweenVec(merged.value.scale, outgoing.value.scale, incoming.value.scale))
  {
    hide BetweenVec, Lerp3, Rotation, ArcFor;
    if outgoing.Some? && incoming.Some? {
      LerpVecBetween(outgoing.value.translation, incoming.value.translation, t);
      LerpVecBetween(outgoing.value.scale, incoming.value.scale, t);
    }
  }

  // ---- which way a blend goes -------------------------------------------------------------------------------------

  predicate BetweenQuat(q: Quat, a: Quat, b: Quat) {
    Between(q.x, a.x, b.x) && Between(q.y, a.y, b.y) && Between(q.z, a.z, b.z) && Between(q.w, a.w, b.w)
  }

  /** A blend sets out from its outgoing side and arrives at its incoming one. */
  lemma BlendEnds(outgoing: Transform, incoming: Transform, arc: HeldArc)
    ensures Blend(outgoing, incoming, arc, 0.0) == Transform(arc.outgoing, outgoing.translation, outgoing.scale)
    ensures Blend(outgoing, incoming, arc, 1.0) == Transform(arc.incoming, incoming.translation, incoming.scale)
  {
  }

  lemma MergeEnds(outgoing: Transform, incoming: Transform, held: Option<HeldArc>, facing: Option<Quat>,
                  near: Nearness)
    ensures var start := Merge(Some(outgoing), Some(incoming), held, facing, near, 0.0);
            && start.Some? && SameRotation(start.value.rotation, outgoing.rotation)
            && start.value.translation == outgoing.translation && start.value.scale == outgoing.scale
    ensures var end := Merge(Some(outgoing), Some(incoming), held, facing, near, 1.0);
            && end.Some? && SameRotation(end.value.rotation, incoming.rotation)
            && end.value.translation == incoming.translation && end.value.scale == incoming.scale
  {
    var arc := ArcFor(held, outgoing.rotation, incoming.rotation, facing, near);
    ArcIsSampled(held, outgoing.rotation, incoming.rotation, facing, near);
    BlendEnds(outgoing, incoming, arc);
    hide ArcFor, Blend, SameRotation;
  }

  lemma WholePart(part: real, whole: real)
    requires whole != 0.0
    ensures part == 0.0 ==> part / whole == 0.0
    ensures part == whole ==> part / whole == 1.0
  {
  }

  lemma LerpGoesOn(a: real, b: real, s: real, t: real)
    requires 0.0 <= s <= t <= 1.0
    ensures Between(Lerp(a, b, t), Lerp(a, b, s), b)
  {
    var (x, y) := (Lerp(a, b, s), Lerp(a, b, t));
    StepOfLerp(a, b, s, t);
    StepOfLerp(a, b, t, 1.0);
    LerpToEnd(a, b);
    hide Lerp;
    if a <= b {
      ProductNotNegative(b - a, t - s, y - x);
      ProductNotNegative(b - a, 1.0 - t, b - y);
    } else {
      ProductNotNegative(a - b, t - s, x - y);
      ProductNotNegative(a - b, 1.0 - t, y - b);
    }
  }

  lemma StepOfLerp(a: real, b: real, s: real, t: real)
    ensures Lerp(a, b, t) - Lerp(a, b, s) == (b - a) * (t - s)
    ensures Lerp(a, b, s) - Lerp(a, b, t) == (a - b) * (t - s)
  {
  }

  lemma LerpToEnd(a: real, b: real)
    ensures Lerp(a, b, 0.0) == a && Lerp(a, b, 1.0) == b && Lerp(a, b, 0.5) == (a + b) / 2.0
  {
  }

  lemma RotationIsSum(arc: HeldArc, t: real)
    ensures Rotation(arc, t) == WeightedSum(arc.outgoing, arc.incoming, t)
  {
  }

  lemma SumGoesOn(a: Quat, b: Quat, s: real, t: real)
    requires 0.0 <= s <= t <= 1.0
    ensures BetweenQuat(WeightedSum(a, b, t), WeightedSum(a, b, s), b)
  {
    hide Between, Lerp;
    LerpGoesOn(a.x, b.x, s, t);
    LerpGoesOn(a.y, b.y, s, t);
    LerpGoesOn(a.z, b.z, s, t);
    LerpGoesOn(a.w, b.w, s, t);
  }

  lemma LerpVecGoesOn(a: Vec3, b: Vec3, s: real, t: real)
    requires 0.0 <= s <= t <= 1.0
    ensures BetweenVec(Lerp3(a, b, t), Lerp3(a, b, s), b)
  {
    hide Between, Lerp;
    LerpGoesOn(a.x, b.x, s, t);
    LerpGoesOn(a.y, b.y, s, t);
    LerpGoesOn(a.z, b.z, s, t);
  }

  /** Later in a blend nothing is drawn farther from the incoming side. */
  lemma BlendGoesOn(outgoing: Transform, incoming: Transform, arc: HeldArc, s: real, t: real)
    requires 0.0 <= s <= t <= 1.0
    ensures var (before, after) := (Blend(outgoing, incoming, arc, s), Blend(outgoing, incoming, arc, t));
            && BetweenQuat(after.rotation, before.rotation, arc.incoming)
            && BetweenVec(after.translation, before.translation, incoming.translation)
            && BetweenVec(after.scale, before.scale, incoming.scale)
  {
    hide BetweenQuat, BetweenVec, WeightedSum, Lerp3, Rotation;
    RotationIsSum(arc, s);
    RotationIsSum(arc, t);
    SumGoesOn(arc.outgoing, arc.incoming, s, t);
    LerpVecGoesOn(outgoing.translation, incoming.translation, s, t);
    LerpVecGoesOn(outgoing.scale, incoming.scale, s, t);
  }

  /** Half way between two rotations. */
  function Midway(a: Quat, b: Quat): Quat {
    Quat((a.x + b.x) / 2.0, (a.y + b.y) / 2.0, (a.z + b.z) / 2.0, (a.w + b.w) / 2.0)
  }

  lemma MidwayIs(a: Quat, b: Quat)
    ensures WeightedSum(a, b, 0.5) == Midway(a, b)
  {
  }

  /**
   With a pose to face a merge sets out from the outgoing side the short way, except when half way there it would stand
   farther from that pose than at either end and half way round the other way it would stand nearer.
   */
  lemma SetsOutThroughFacing(outgoing: Quat, incoming: Quat, face: Quat, near: Nearness)
    ensures var arc := SetOut(outgoing, incoming, Some(face), near);
            var short := if Dot4(outgoing, incoming) >= 0.0 then incoming else Negated(incoming);
            var mid := near(Midway(outgoing, short), face);
            && arc.outgoing == outgoing
            && var other := near(Midway(outgoing, Negated(short)), face);
               arc.incoming == if mid < near(outgoing, face) && mid < near(incoming, face) && other > mid
                               then Negated(short) else short
  {
    hide Dot4, WeightedSum, Negated, Midway;
    DotSwapped(incoming, outgoing);
    var short := OnSideOf(incoming, outgoing);
    MidwayIs(outgoing, short);
    MidwayIs(outgoing, Negated(short));
  }

  // ---- the transition by value -----------------------------------------------------------------------------------

  datatype Side = LiveSide(context: Context) | FrozenSide(snapshot: Snapshot)

  /** Everything a blend holds but the pairs its bones stand on. */
  datatype BlendView = BlendView(previous: Side, next: Context, duration: real, progress: real,
                                 facing: Option<Snapshot>)
  {
    predicate Playable() { next.Playable() && (previous.LiveSide? ==> previous.context.Playable()) }
  }

  /** A blend after a tick: both sides step, a still stays still. */
  function BlendAdvanced(b: BlendView, elapsed: real): BlendView
    requires b.Playable()
  {
    b.(previous := if b.previous.LiveSide? then LiveSide(Advanced(b.previous.context, elapsed)) else b.previous,
       next := Advanced(b.next, elapsed), progress := b.progress + elapsed)
  }

  const BIND_ROTATION := IDENTITY_QUAT

  class AnimationTransition {
    const previous: PreviousSide
    const next: SkeletonAnimationContext
    const transitionDuration: real
    const facing: Option<Snapshot>
    const near: Nearness
    var progress: real
    var arcs: seq<Option<HeldArc>>

    /** The contexts a blend plays. */
    function Sides(): set<object> {
      {next} + if previous.Live? then {previous.ctx} else {}
    }

    function Footprint(): set<object> { {this} + Sides() }

    predicate Valid()
      reads this, Sides()
    {
      && next.View().Playable()
      && (previous.Live? ==> previous.ctx != next && previous.ctx.View().Playable())
      && 0.0 <= progress && transitionDuration != 0.0
    }

    function View(): BlendView
      reads this, Sides()
    {
      var side := match previous case Live(ctx) => LiveSide(ctx.View()) case Frozen(snapshot) => FrozenSide(snapshot);
      BlendView(side, next.View(), transitionDuration, progress, facing)
    }

    function Outgoing(joint: nat): Option<Transform>
      reads Sides()
    {
      match previous
      case Live(ctx) => ctx.View().At(joint)
      case Frozen(snapshot) => Lookup(snapshot, joint)
    }

    function Incoming(joint: nat): Option<Transform>
      reads next
    {
      next.View().At(joint)
    }

    function OutgoingKeys(): set<nat>
      reads Sides()
    {
      match previous
      case Live(ctx) => ctx.animation.keyed
      case Frozen(snapshot) => snapshot.Keys
    }

    function ArcAt(joint: nat): Option<HeldArc>
      reads this
    {
      if joint < |arcs| then arcs[joint] else None
    }

    /** A bone the facing pose does not key stands in its bind orientation there. */
    function FacingAt(joint: nat): Option<Quat> {
      match facing
      case None => None
      case Some(pose) => Some(if joint in pose then pose[joint].rotation else BIND_ROTATION)
    }

    /** A blend turning to face a pose faces it bone by bone, and the bind orientation for a bone the pose lacks. */
    lemma FacesBoneByBone(joint: nat)
      ensures facing.None? <==> FacingAt(joint).None?
      ensures facing.Some? && joint in facing.value ==> FacingAt(joint) == Some(facing.value[joint].rotation)
      ensures facing.Some? && joint !in facing.value ==> FacingAt(joint) == Some(Quat(0.0, 0.0, 0.0, 1.0))
    {
    }

    constructor (previous: PreviousSide, next: SkeletonAnimationContext, transitionDuration: real,
                 facing: Option<Snapshot>, near: Nearness)
      ensures this.previous == previous && this.next == next && this.transitionDuration == transitionDuration
      ensures this.facing == facing && this.near == near
      ensures progress == 0.0 && arcs == []
    {
      this.previous, this.next, this.transitionDuration := previous, next, transitionDuration;
      this.facing, this.near := facing, near;
      progress, arcs := 0.0, [];
    }

    function At(joint: nat): Option<Transform>
      requires transitionDuration != 0.0
      reads this, Sides()
    {
      Merge(Outgoing(joint), Incoming(joint), ArcAt(joint), FacingAt(joint), near, progress / transitionDuration)
    }

    /** The composite on screen, frozen: every bone either side keys, as the blend stands. */
    function Snapshot(): (s: Snapshot)
      requires transitionDuration != 0.0
      reads this, Sides()
      ensures forall joint :: Lookup(s, joint) == At(joint)
    {
      var keys := set joint | joint in OutgoingKeys() + next.animation.keyed && At(joint).Some?;
      map joint | joint in keys :: At(joint).value
    }

    function IsComplete(): bool
      reads this
    {
      progress >= transitionDuration
    }

    /** A bone both sides key is drawn along the pair it holds, and where it holds none along a fresh one. */
    lemma DrawnAlongHeld(joint: nat, held: Option<HeldArc>)
      requires transitionDuration != 0.0 && Outgoing(joint).Some? && Incoming(joint).Some?
      requires ArcAt(joint) == HeldNext(joint, held)
      ensures ArcAt(joint).Some?
      ensures At(joint) == Some(Blend(Outgoing(joint).value, Incoming(joint).value, ArcAt(joint).value,
                                      progress / transitionDuration))
    {
      hide Dot4, Blend, SameRotation, ArcFor;
      var o, i := Outgoing(joint).value.rotation, Incoming(joint).value.rotation;
      ArcIsSampled(held, o, i, FacingAt(joint), near);
      HeldAgain(ArcAt(joint).value, o, i);
      ArcForHeld(ArcAt(joint).value, o, i, FacingAt(joint), near);
    }

    /** A blend just begun shows the outgoing side of a bone both sides key, and one at its end the incoming side. */
    lemma ShowsEnds(joint: nat)
      requires transitionDuration != 0.0 && Outgoing(joint).Some? && Incoming(joint).Some?
      requires progress == 0.0 || progress == transitionDuration
      ensures At(joint).Some?
      ensures var (shown, side) := (At(joint).value, if progress == 0.0 then Outgoing(joint).value
                                                     else Incoming(joint).value);
              SameRotation(shown.rotation, side.rotation)
              && shown.translation == side.translation && shown.scale == side.scale
    {
      hide Merge, SameRotation;
      MergeEnds(Outgoing(joint).value, Incoming(joint).value, ArcAt(joint), FacingAt(joint), near);
      WholePart(progress, transitionDuration);
    }

    /** Both sides step, the blend goes on, and every bone both sides key takes its pair from the one it held. */
    method Update(elapsed: real) returns (complete: bool)
      requires Valid() && elapsed >= 0.0
      modifies Footprint()
      ensures Valid() && View() == BlendAdvanced(old(View()), elapsed)
      ensures next.View() == Advanced(old(next.View()), elapsed)
      ensures previous.Live? ==> previous.ctx.View() == Advanced(old(previous.ctx.View()), elapsed)
      ensures progress == old(progress) + elapsed && complete == IsComplete()
      ensures forall joint: nat :: ArcAt(joint) == HeldNext(joint, old(ArcAt(joint)))
      ensures forall joint: nat :: Outgoing(joint).Some? && Incoming(joint).Some? ==>
                ArcAt(joint).Some?
                && At(joint) == Some(Blend(Outgoing(joint).value, Incoming(joint).value, ArcAt(joint).value,
                                           progress / transitionDuration))
    {
      hide Blend, Merge, ArcFor;
      if previous.Live? {
        previous.ctx.Advance(elapsed);
      }
      next.Advance(elapsed);
      progress := progress + elapsed;
      HoldArcs();
      forall joint: nat | Outgoing(joint).Some? && Incoming(joint).Some?
        ensures ArcAt(joint).Some?
        ensures At(joint) == Some(Blend(Outgoing(joint).value, Incoming(joint).value, ArcAt(joint).value,
                                        progress / transitionDuration))
      {
        DrawnAlongHeld(joint, old(ArcAt(joint)));
      }
      complete := progress >= transitionDuration;
    }

    /** What a bone's arc becomes at the playheads this tick left. */
    function HeldNext(joint: nat, held: Option<HeldArc>): Option<HeldArc>
      reads Sides()
    {
      if Outgoing(joint).Some? && Incoming(joint).Some? then
        Some(ArcFor(held, Outgoing(joint).value.rotation, Incoming(joint).value.rotation, FacingAt(joint), near))
      else held
    }

    method HoldArcs()
      modifies this`arcs
      ensures forall joint: nat :: ArcAt(joint) == HeldNext(joint, old(ArcAt(joint)))
    {
      var todo := next.animation.keyed;
      while todo != {}
        invariant todo <= next.animation.keyed
        invariant forall joint: nat :: ArcAt(joint) == if joint in next.animation.keyed - todo
                                                       then HeldNext(joint, old(ArcAt(joint))) else old(ArcAt(joint))
      {
        var joint :| joint in todo;
        todo := todo - {joint};
        var outgoing, incoming := Outgoing(joint), Incoming(joint);
        if outgoing.None? || incoming.None? {
          continue;
        }
        var arc := ArcFor(ArcAt(joint), outgoing.value.rotation, incoming.value.rotation, FacingAt(joint), near);
        if |arcs| <= joint {
          arcs := arcs + seq(joint + 1 - |arcs|, _ => None);
        }
        arcs := arcs[joint := Some(arc)];
      }
    }
  }
}
