/**
 The eight slots together: which layer owns a bone, and the pose pass that records it for every bone of a frame.
 */
module Coordinator {
  import opened Wrappers
  import opened Matrix
  import opened Playback
  import opened Crossfade
  import opened Animator

  const SLOTS: nat := 8
  const CATEGORY_VALUES: nat := 0x40
  const ACCEPTS_BLEND_LAYERS: nat := 0x80
  const DEFAULT_MASK: nat := 0x81

  type Mask = m: nat | m < 0x100

  /** A bone with no channel category is written by nothing. */
  predicate Writable(mask: Mask) { mask % CATEGORY_VALUES != 0 }

  predicate AcceptsBlendLayers(mask: Mask) { mask >= ACCEPTS_BLEND_LAYERS }

  type Layers = seq<Option<Transform>>

  type Owned = Option<(nat, Transform)>

  function RecordOf(owned: Owned): Option<Transform> { if owned.Some? then Some(owned.value.1) else None }

  function WriterOf(owned: Owned): Option<nat> { if owned.Some? then Some(owned.value.0) else None }

  /** The first slot from `from` on that samples. */
  function FirstSlot(layers: Layers, from: nat): Owned
    requires from <= |layers|
    decreases |layers| - from
  {
    if from == |layers| then None
    else if layers[from].Some? then Some((from, layers[from].value))
    else FirstSlot(layers, from + 1)
  }

  /** What stands after the layers from the last down to `down` have each overwritten the bone if they sample it. */
  function OverwriteWalk(layers: Layers, down: nat): Owned
    requires down <= |layers|
    decreases |layers| - down
  {
    if down == |layers| then None
    else
      var before := OverwriteWalk(layers, down + 1);
      if layers[down].Some? then Some((down, layers[down].value)) else before
  }

  /** Ownership by first slot is the descending overwrite walk it stands for. */
  lemma {:induction false} FirstSlotIsOverwriteWalk(layers: Layers, from: nat)
    requires from <= |layers|
    ensures FirstSlot(layers, from) == OverwriteWalk(layers, from)
    decreases |layers| - from
  {
    if from < |layers| {
      FirstSlotIsOverwriteWalk(layers, from + 1);
    }
  }

  /** The owner samples the bone, and no slot before it does; no owner means no slot does. */
  lemma {:induction false} OwnerIsFirst(layers: Layers, from: nat)
    requires from <= |layers|
    ensures FirstSlot(layers, from).None? <==> forall s :: from <= s < |layers| ==> layers[s].None?
    ensures FirstSlot(layers, from).Some? ==>
              var (slot, record) := FirstSlot(layers, from).value;
              && from <= slot < |layers| && layers[slot] == Some(record)
              && forall s :: from <= s < slot ==> layers[s].None?
    decreases |layers| - from
  {
    if from < |layers| {
      OwnerIsFirst(layers, from + 1);
    }
  }

  /** The layers with slots `0..=slot` removed. */
  function Without(layers: Layers, slot: nat): (rest: Layers)
    ensures |rest| == |layers|
  {
    seq(|layers|, s requires 0 <= s < |layers| => if s <= slot then None else layers[s])
  }

  lemma {:induction false} FirstSlotUnder(layers: Layers, slot: nat, from: nat)
    requires from <= |layers|
    ensures FirstSlot(Without(layers, slot), from)
            == if slot + 1 <= from then FirstSlot(layers, from)
               else if slot + 1 <= |layers| then FirstSlot(layers, slot + 1) else None
    decreases |layers| - from
  {
    if from < |layers| {
      FirstSlotUnder(layers, slot, from + 1);
    }
  }

  // ---- the pose scratch -------------------------------------------------------------------------------------------

  class BonePoseScratch {
    var records: seq<Option<Transform>>
    var writers: seq<Option<nat>>

    ghost predicate Valid()
      reads this
    {
      |records| == |writers|
    }

    constructor ()
      ensures Valid() && records == [] && writers == []
    {
      records, writers := [], [];
    }

    /** Another bone count is another skeleton: nothing carried survives it. */
    method SetBoneCount(bones: nat)
      requires Valid()
      modifies this
      ensures Valid() && |records| == bones
      ensures old(|records|) == bones ==> records == old(records) && writers == old(writers)
      ensures old(|records|) != bones ==> forall b :: 0 <= b < bones ==> records[b].None? && writers[b].None?
    {
      if |records| != bones {
        records := seq(bones, _ => None);
        writers := seq(bones, _ => None);
      }
    }

    method Clear()
      requires Valid()
      modifies this
      ensures Valid() && |records| == old(|records|)
      ensures forall b :: 0 <= b < |records| ==> records[b].None? && writers[b].None?
    {
      records := seq(|records|, _ => None);
      writers := seq(|writers|, _ => None);
    }

    /** The reset pass: every frame starts from nothing. */
    method BeginFrame(bones: nat)
      requires Valid()
      modifies this
      ensures Valid() && |records| == bones
      ensures forall b :: 0 <= b < bones ==> records[b].None? && writers[b].None?
    {
      SetBoneCount(bones);
      Clear();
    }

    function Get(bone: nat): Option<Transform>
      reads this
    {
      if bone < |records| then records[bone] else None
    }

    function Writer(bone: nat): Option<nat>
      reads this
    {
      if bone < |writers| then writers[bone] else None
    }

    /** Record what a frame sampled for one bone, the empty case included. */
    method Write(bone: nat, sampled: Owned)
      requires Valid()
      modifies this
      ensures Valid() && |records| == old(|records|)
      ensures forall b: nat :: b != bone ==> Get(b) == old(Get(b)) && Writer(b) == old(Writer(b))
      ensures bone < |records| && sampled.None? ==> Get(bone) == None && Writer(bone) == None
      ensures bone < |records| && sampled.Some? ==>
                Get(bone) == Some(sampled.value.1) && Writer(bone) == Some(sampled.value.0)
    {
      if bone < |records| {
        records := records[bone := RecordOf(sampled)];
      }
      if bone < |writers| {
        writers := writers[bone := WriterOf(sampled)];
      }
    }
  }

  // ---- requests ---------------------------------------------------------------------------------------------------

  /** The slot a clip's name sends it to. */
  function SlotOf(clip: Clip): (slot: nat)
    ensures slot < SLOTS
  {
    var digit := if clip.finalDigit.Some? then clip.finalDigit.value else 0;
    if digit < SLOTS - 1 then digit else SLOTS - 1
  }

  /** There are eight slots: the last digit of a clip's name picks one, the highest digits share the last. */
  lemma SlotByDigit(clip: Clip)
    ensures clip.finalDigit.None? ==> SlotOf(clip) == 0
    ensures clip.finalDigit.Some? && clip.finalDigit.value <= 7 ==> SlotOf(clip) == clip.finalDigit.value
    ensures clip.finalDigit.Some? && clip.finalDigit.value >= 7 ==> SlotOf(clip) == 7
  {
  }

  const EMPTY_LAYER := LayerView(None, None)

  /** The out time a slot's clip was registered with. */
  function OutTime(playing: Option<Context>): Option<real> {
    if playing.Some? && playing.value.transitionParams.Some? then Some(playing.value.transitionParams.value.outTime)
    else None
  }

  /** Whether a slot hands over: it is empty, its clip never ends, has ended, or asks to leave early. */
  predicate ReadyForTransitionOut(playing: Option<Context>, requireTransitionOut: bool) {
    var outTime := OutTime(playing);
    var noOut := outTime.None? || outTime == Some(0.0);
    var hasOut := outTime.Some? && outTime.value > 0.0;
    && (!requireTransitionOut || noOut || hasOut)
    && (playing.None? || playing.value.IsDoneLooping() || playing.value.Eager())
  }

  /** Without the demand only a clip still counting its loops, and not eager to leave, holds its slot. */
  lemma HoldsItsSlot(playing: Option<Context>)
    ensures !ReadyForTransitionOut(playing, false)
            <==> && playing.Some? && playing.value.loopParams.numLoops.Some? && !playing.value.completed
                 && (playing.value.transitionParams.Some? ==> !playing.value.transitionParams.value.eagerOut)
  {
  }

  /** Demanding an out time refuses exactly the slots whose clip has a negative one. */
  lemma DemandRefusesNegative(playing: Option<Context>)
    ensures ReadyForTransitionOut(playing, true)
            <==> ReadyForTransitionOut(playing, false)
                 && !(OutTime(playing).Some? && OutTime(playing).value < 0.0)
  {
  }

  /** A looping clip registered without transition parameters has no out time, and passes the demand for one. */
  lemma DemandPassesWithout(animation: Clip)
    ensures var playing := Some(NewContext(animation, LOW_PRIORITY_LOOP, None));
            OutTime(playing).None? && ReadyForTransitionOut(playing, true)
  {
  }

  /** An idle clip installed by a stop loops for ever at its own rate, and asking for it again changes nothing. */
  lemma IdleIsNotRestarted(slot: nat, l: LayerView, animation: Clip, startFrame: real, fadeFrames: real,
                           still: Snapshot, requested: Context, params: Option<TransitionParams>, now: Snapshot)
    requires l.Playable() && Sane(NewContext(animation, LOW_PRIORITY_LOOP, None)) && Sane(requested)
    requires requested.animation.id == animation.id && (params.Some? ==> params.value.inTime != 0.0)
    ensures var after := Stopped(slot, l, animation, LOW_PRIORITY_LOOP, startFrame, fadeFrames, still);
            && after.Playable() && Requested(slot, after, requested, params, now) == after
            && after.current.value.loopParams.numLoops.None? && after.current.value.loopParams.loopDuration.None?
  {
    hide Remainder, BlendTime, InStepStart, SnapshotOf;
  }

  // ---- the coordinator --------------------------------------------------------------------------------------------

  class SkeletonAnimationCoordinator {
    var animations: seq<SkeletonAnimator?>
    var masks: seq<Mask>
    const near: Nearness
    /** Every object the layers reach. */
    ghost var footprint: set<object>

    /** The slot is empty, or holds a valid layer of its own number whose blend stands on the slot's own clip. */
    ghost predicate SlotValid(slot: nat)
      requires slot < |animations|
      reads this`animations, this`footprint, footprint
    {
      animations[slot] != null ==>
        && animations[slot] in footprint && animations[slot].Repr() <= footprint
        && animations[slot].Valid() && animations[slot].Twins() && animations[slot].animationSlot == slot
    }

    ghost predicate Apart(s: nat, t: nat)
      requires s < |animations| && SlotValid(s) && t < |animations| && SlotValid(t)
      reads this`animations, this`footprint, footprint
    {
      animations[s] != null && animations[t] != null ==> animations[s].Repr() !! animations[t].Repr()
    }

    /** Every slot is valid, and no two share an object. */
    ghost predicate Valid()
      reads this`animations, this`footprint, footprint
    {
      && this !in footprint
      && |animations| == SLOTS
      && (forall s: nat :: s < SLOTS ==> SlotValid(s))
      && (forall s: nat, t: nat :: s < SLOTS && t < SLOTS && s != t ==> Apart(s, t))
    }

    constructor (near: Nearness)
      ensures Valid() && fresh(footprint) && masks == [] && forall s :: 0 <= s < SLOTS ==> animations[s] == null
    {
      this.near := near;
      animations := seq(SLOTS, _ => null);
      masks := [];
      footprint := {};
    }

    function MaskAt(bone: nat): Mask
      reads this
    {
      if bone < |masks| then masks[bone] else DEFAULT_MASK
    }

    /** What one slot writes for a bone that takes blends, or refuses them. */
    function SlotSample(slot: nat, joint: nat, blendAllowed: bool): Option<Transform>
      requires slot < |animations| && SlotValid(slot)
      reads this`animations, this`footprint, footprint
    {
      if animations[slot] == null then None else animations[slot].Sample(joint, blendAllowed)
    }

    /** What one slot samples for a bone. */
    function LayerAt(slot: nat, joint: nat): Option<Transform>
      requires slot < |animations| && SlotValid(slot)
      reads this, footprint
    {
      SlotSample(slot, joint, AcceptsBlendLayers(MaskAt(joint)))
    }

    /**
     A bone's mask says what it takes, a bone past the masks' end having 129: without a category in its low six bits the
     bone is written by nothing, and with its top bit clear it refuses blends.
     */
    lemma MaskReads(slot: nat, joint: nat)
      requires Valid() && slot < 8
      ensures var mask: nat := if joint < |masks| then masks[joint] else 129;
              && (mask % 64 == 0 ==> SampleJointBySlot(joint).None?)
              && (mask % 64 != 0 ==> SampleJointBySlot(joint) == FirstSlot(LayersAt(joint), 0))
              && LayersAt(joint)[slot] == SlotSample(slot, joint, mask >= 128)
    {
      hide FirstSlot;
    }

    /** What the slots before `count` sample for a bone. */
    function LayersTo(count: nat, joint: nat): (layers: Layers)
      requires Valid() && count <= SLOTS
      reads this, footprint
      ensures |layers| == count && forall s: nat :: s < count ==> SlotValid(s) && layers[s] == LayerAt(s, joint)
    {
      if count == 0 then [] else LayersTo(count - 1, joint) + [LayerAt(count - 1, joint)]
    }

    /** What every slot samples for a bone. */
    function LayersAt(joint: nat): (layers: Layers)
      requires Valid()
      reads this, footprint
      ensures |layers| == SLOTS && forall s: nat :: s < SLOTS ==> SlotValid(s) && layers[s] == LayerAt(s, joint)
    {
      LayersTo(SLOTS, joint)
    }

    /** The bone's owner and its record. */
    function SampleJointBySlot(joint: nat): Owned
      requires Valid()
      reads this, footprint
    {
      if Writable(MaskAt(joint)) then FirstSlot(LayersAt(joint), 0) else None
    }

    /** The bone as the layers under `slot` alone would write it. */
    function SampleJointUnder(slot: nat, joint: nat): Owned
      requires Valid()
      reads this, footprint
    {
      if !Writable(MaskAt(joint)) then None
      else if slot + 1 <= SLOTS then FirstSlot(LayersAt(joint), slot + 1)
      else None
    }

    /** Sampling under a slot is sampling with that slot and all before it removed. */
    lemma UnderIsWithout(slot: nat, joint: nat)
      requires Valid()
      ensures SampleJointUnder(slot, joint)
              == if Writable(MaskAt(joint)) then FirstSlot(Without(LayersAt(joint), slot), 0) else None
    {
      FirstSlotUnder(LayersAt(joint), slot, 0);
    }

    method SetBoneCount(bones: nat)
      modifies this`masks
      ensures |masks| == bones
      ensures forall bone: nat :: bone < bones ==> MaskAt(bone) == old(MaskAt(bone))
    {
      if |masks| < bones {
        masks := masks + seq(bones - |masks|, _ => DEFAULT_MASK);
      } else if |masks| > bones {
        masks := masks[..bones];
      }
    }

    /** The record and the writer of one bone are what the ownership law gives. */
    ghost predicate Shows(scratch: BonePoseScratch, bone: nat)
      requires Valid()
      reads this, footprint, scratch
    {
      match SampleJointBySlot(bone)
      case None => scratch.Get(bone) == None && scratch.Writer(bone) == None
      case Some(owner) => scratch.Get(bone) == Some(owner.1) && scratch.Writer(bone) == Some(owner.0)
    }

    lemma OwnerlessWhen(joint: nat)
      requires Valid()
      ensures SampleJointBySlot(joint).None?
              <==> !Writable(MaskAt(joint)) || forall s :: 0 <= s < SLOTS ==> LayersAt(joint)[s].None?
    {
      hide FirstSlot, Valid;
      OwnerIsFirst(LayersAt(joint), 0);
    }

    /**
     A frame's pose pass: every bone's record and writer is what the ownership law gives, nothing for a blocked or
     unkeyed one, and nothing depends on what the scratch held.
     */
    method SamplePose(bones: nat, scratch: BonePoseScratch)
      requires Valid() && scratch.Valid() && scratch !in footprint
      modifies this`masks, scratch
      ensures Valid() && scratch.Valid() && |scratch.records| == bones
      ensures forall bone: nat :: bone < bones ==> MaskAt(bone) == old(MaskAt(bone)) && Shows(scratch, bone)
    {
      SetBoneCount(bones);
      scratch.BeginFrame(bones);
      SampleBones(scratch);
    }

    method SampleBones(scratch: BonePoseScratch)
      requires Valid() && scratch.Valid() && scratch !in footprint
      modifies scratch
      ensures scratch.Valid() && |scratch.records| == old(|scratch.records|)
      ensures Valid() && forall bone: nat :: bone < |scratch.records| ==> Shows(scratch, bone)
    {
      hide FirstSlot, LayersAt, SampleJointBySlot, Writable, Valid;
      for bone := 0 to |scratch.records|
        invariant Valid() && scratch.Valid() && |scratch.records| == old(|scratch.records|) && scratch !in footprint
        invariant forall b: nat :: b < bone ==> Shows(scratch, b)
      {
        var sampled := SampleJointBySlot(bone);
        label Before:
        scratch.Write(bone, sampled);
        assert SampleJointBySlot(bone) == sampled;
        forall b: nat | b < bone ensures Shows(scratch, b) {
          assert old@Before(Shows(scratch, b));
          assert SampleJointBySlot(b) == old@Before(SampleJointBySlot(b));
        }
      }
    }

    // ---- requests -------------------------------------------------------------------------------------------------

    /** A slot's layer: its clip and its blend. An empty slot and one that has played nothing yet are alike. */
    function Layer(slot: nat): (l: LayerView)
      requires slot < |animations| && SlotValid(slot)
      reads this`animations, this`footprint, footprint
      ensures l.Playable()
    {
      if animations[slot] == null then EMPTY_LAYER else animations[slot].View()
    }

    /** The composite a slot's running blend shows. */
    function Still(slot: nat): Snapshot
      requires slot < |animations| && SlotValid(slot)
      reads this`animations, this`footprint, footprint
    {
      if animations[slot] == null then map[] else animations[slot].Still()
    }

    /** What happens inside one slot's layer leaves the other slots valid, apart and as they were. */
    twostate lemma OthersKept(slot: nat)
      requires old(Valid()) && slot < SLOTS && animations == old(animations) && animations[slot] != null
      requires old(footprint) <= footprint && this !in footprint && SlotValid(slot) && old(SlotValid(slot))
      requires forall o :: o in animations[slot].Repr() ==> o in old(animations[slot].Repr()) || o !in old(footprint)
      requires forall o :: o in old(footprint) && o !in old(animations[slot].Repr()) ==> unchanged(o)
      ensures Valid()
      ensures forall t: nat :: t < SLOTS && t != slot ==> Layer(t) == old(Layer(t))
      ensures forall t: nat, joint: nat, blendAllowed: bool :: t < SLOTS && t != slot ==>
                SlotSample(t, joint, blendAllowed) == old(SlotSample(t, joint, blendAllowed))
    {
      forall t: nat | t < SLOTS && t != slot
        ensures SlotValid(t) && Layer(t) == old(Layer(t))
        ensures forall joint: nat, blendAllowed: bool ::
                  SlotSample(t, joint, blendAllowed) == old(SlotSample(t, joint, blendAllowed))
        ensures animations[t] != null ==> animations[t].Repr() == old(animations[t].Repr())
      {
        assert old(SlotValid(t)) && old(Apart(slot, t));
      }
      forall s: nat, t: nat | s < SLOTS && t < SLOTS && s != t
        ensures Apart(s, t)
      {
        assert old(Apart(s, t));
      }
    }

    /** One slot's tick; the other slots do not see it. */
    method UpdateSlot(slot: nat, elapsed: real)
      requires Valid() && slot < SLOTS && animations[slot] != null && elapsed >= 0.0
      modifies animations[slot].Repr()
      ensures Valid()
      ensures Layer(slot) == Stepped(old(Layer(slot)), elapsed)
      ensures forall t: nat :: t < SLOTS && t != slot ==> Layer(t) == old(Layer(t))
    {
      assert SlotValid(slot);
      animations[slot].Update(elapsed);
      OthersKept(slot);
    }

    /** A tick steps every slot's clip and blend by the same time. */
    method Update(elapsed: real)
      requires Valid() && elapsed >= 0.0
      modifies footprint
      ensures Valid()
      ensures forall s: nat :: s < SLOTS ==> Layer(s) == Stepped(old(Layer(s)), elapsed)
    {
      for slot := 0 to SLOTS
        invariant Valid()
        invariant forall s: nat :: s < slot ==> Layer(s) == Stepped(old(Layer(s)), elapsed)
        invariant forall s: nat :: slot <= s < SLOTS ==> Layer(s) == old(Layer(s))
      {
        assert SlotValid(slot);
        if animations[slot] != null {
          UpdateSlot(slot, elapsed);
        }
      }
    }

    /** A new layer in an empty slot leaves the others valid, apart and as they were. */
    twostate lemma OthersKeptByPut(slot: nat)
      requires old(Valid()) && slot < SLOTS && old(animations[slot]) == null && |animations| == SLOTS
      requires forall t: nat :: t < SLOTS && t != slot ==> animations[t] == old(animations[t])
      requires old(footprint) <= footprint && this !in footprint && SlotValid(slot) && animations[slot] != null
      requires forall o :: o in animations[slot].Repr() ==> o !in old(footprint)
      requires forall o :: o in old(footprint) ==> unchanged(o)
      ensures Valid()
      ensures forall t: nat :: t < SLOTS && t != slot ==> Layer(t) == old(Layer(t))
      ensures forall t: nat, joint: nat, blendAllowed: bool :: t < SLOTS && t != slot ==>
                SlotSample(t, joint, blendAllowed) == old(SlotSample(t, joint, blendAllowed))
    {
      forall t: nat | t < SLOTS && t != slot
        ensures SlotValid(t) && Layer(t) == old(Layer(t))
        ensures forall joint: nat, blendAllowed: bool ::
                  SlotSample(t, joint, blendAllowed) == old(SlotSample(t, joint, blendAllowed))
        ensures animations[t] != null ==> animations[t].Repr() == old(animations[t].Repr())
      {
        assert old(SlotValid(t));
      }
      forall s: nat, t: nat | s < SLOTS && t < SLOTS && s != t
        ensures Apart(s, t)
      {
        if s == slot || t == slot {
          var other := if s == slot then t else s;
          assert old(SlotValid(other));
          assert animations[other] != null ==> animations[other].Repr() <= old(footprint);
        } else {
          assert old(Apart(s, t));
        }
      }
    }

    method GetOrPut(slot: nat)
      requires Valid() && slot < SLOTS
      modifies this`animations, this`footprint
      ensures Valid() && animations[slot] != null && fresh(footprint - old(footprint)) && old(footprint) <= footprint
      ensures old(animations[slot]) != null ==> animations == old(animations)
      ensures old(animations[slot]) == null ==> fresh(animations[slot])
      ensures forall t: nat :: t < SLOTS && t != slot ==> animations[t] == old(animations[t])
      ensures forall t: nat :: t < SLOTS ==> Layer(t) == old(Layer(t))
      ensures forall t: nat, joint: nat, blendAllowed: bool :: t < SLOTS ==>
                SlotSample(t, joint, blendAllowed) == old(SlotSample(t, joint, blendAllowed))
      ensures Still(slot) == old(Still(slot))
    {
      if animations[slot] == null {
        var animator := new SkeletonAnimator(slot, near);
        animations := animations[slot := animator];
        footprint := footprint + animator.Repr();
        OthersKeptByPut(slot);
      }
    }

    /** The objects a request to a slot may change. */
    function SlotObjects(slot: nat): set<object>
      requires slot < |animations|
      reads this
    {
      if animations[slot] == null then {} else {animations[slot]}
    }

    /**
     A request: let in exactly when the slot's layer meets the caller's condition, and then the layer stands as a
     request leaves it, blend and all; refused, it plays on; either way no other slot is touched.
     */
    method RegisterAnimation(animation: Clip, loopParams: LoopParams, transitionParams: Option<TransitionParams>,
                             overrideCondition: LayerView -> bool)
      returns (installed: bool)
      requires Valid() && Sane(NewContext(animation, loopParams, transitionParams))
      modifies this`animations, this`footprint, SlotObjects(SlotOf(animation))
      ensures Valid() && installed == overrideCondition(old(Layer(SlotOf(animation))))
      ensures var slot, was, still := SlotOf(animation), old(Layer(SlotOf(animation))), old(Still(SlotOf(animation)));
              installed ==>
                Layer(slot) == Requested(slot, was, NewContext(animation, loopParams, transitionParams),
                                         transitionParams, still)
      ensures forall t: nat :: t < SLOTS && (t != SlotOf(animation) || !installed) ==> Layer(t) == old(Layer(t))
      ensures forall t: nat, joint: nat, blendAllowed: bool :: t < SLOTS && (t != SlotOf(animation) || !installed) ==>
                SlotSample(t, joint, blendAllowed) == old(SlotSample(t, joint, blendAllowed))
    {
      hide Requested;
      var slot := SlotOf(animation);
      assert SlotValid(slot);
      GetOrPut(slot);
      assert SlotValid(slot);
      installed := overrideCondition(Layer(slot));
      if installed {
        var ctx := new SkeletonAnimationContext(animation, loopParams, transitionParams);
        Install(slot, ctx, transitionParams);
      }
    }

    method Install(slot: nat, ctx: SkeletonAnimationContext, params: Option<TransitionParams>)
      requires Valid() && slot < SLOTS && animations[slot] != null && ctx !in footprint
      requires ctx.View().IsNew() && Sane(ctx.View())
      modifies this`footprint, animations[slot], ctx
      ensures Valid() && SlotValid(slot)
      ensures Layer(slot) == Requested(slot, old(Layer(slot)), old(ctx.View()), params, old(Still(slot)))
      ensures forall t: nat :: t < SLOTS && t != slot ==> Layer(t) == old(Layer(t))
      ensures forall t: nat, joint: nat, blendAllowed: bool :: t < SLOTS && t != slot ==>
                SlotSample(t, joint, blendAllowed) == old(SlotSample(t, joint, blendAllowed))
    {
      assert SlotValid(slot);
      animations[slot].SetNextAnimation(ctx, params);
      footprint := footprint + animations[slot].Repr();
      OthersKept(slot);
    }

    /** The registration for a stop: the clip enters at the frame that matches the pose the slot is frozen in. */
    method RegisterIdleAnimationMatched(animation: Clip, startFrame: real, fadeFrames: real) returns (installed: bool)
      requires Valid() && Sane(NewContext(animation, LOW_PRIORITY_LOOP, None))
      modifies this`animations, this`footprint, SlotObjects(SlotOf(animation))
      ensures Valid() && installed == ReadyForTransitionOut(old(Layer(SlotOf(animation))).current, true)
      ensures var slot, was, still := SlotOf(animation), old(Layer(SlotOf(animation))), old(Still(SlotOf(animation)));
              installed ==>
                Layer(slot) == Stopped(slot, was, animation, LOW_PRIORITY_LOOP, startFrame, fadeFrames, still)
      ensures forall t: nat :: t < SLOTS && (t != SlotOf(animation) || !installed) ==> Layer(t) == old(Layer(t))
      ensures forall t: nat, joint: nat, blendAllowed: bool :: t < SLOTS && (t != SlotOf(animation) || !installed) ==>
                SlotSample(t, joint, blendAllowed) == old(SlotSample(t, joint, blendAllowed))
    {
      hide Stopped;
      var slot := SlotOf(animation);
      assert SlotValid(slot);
      GetOrPut(slot);
      assert SlotValid(slot);
      installed := ReadyForTransitionOut(Layer(slot).current, true);
      if installed {
        Settle(slot, animation, LOW_PRIORITY_LOOP, startFrame, fadeFrames);
      }
    }

    method Settle(slot: nat, animation: Clip, loopParams: LoopParams, startFrame: real, fadeFrames: real)
      requires Valid() && slot < SLOTS && animations[slot] != null && Sane(NewContext(animation, loopParams, None))
      modifies this`footprint, animations[slot]
      ensures Valid() && SlotValid(slot)
      ensures Layer(slot)
              == Stopped(slot, old(Layer(slot)), animation, loopParams, startFrame, fadeFrames, old(Still(slot)))
      ensures forall t: nat :: t < SLOTS && t != slot ==> Layer(t) == old(Layer(t))
      ensures forall t: nat, joint: nat, blendAllowed: bool :: t < SLOTS && t != slot ==>
                SlotSample(t, joint, blendAllowed) == old(SlotSample(t, joint, blendAllowed))
    {
      assert SlotValid(slot);
      animations[slot].SetSettledAnimation(animation, loopParams, startFrame, fadeFrames);
      footprint := footprint + animations[slot].Repr();
      OthersKept(slot);
    }

    /** A cleared slot plays nothing; the others play on. */
    method ClearSlot(slot: nat)
      requires Valid()
      modifies this`animations
      ensures Valid()
      ensures slot < SLOTS ==> Layer(slot) == EMPTY_LAYER
      ensures forall t: nat :: t < SLOTS && t != slot ==> Layer(t) == old(Layer(t))
      ensures forall t: nat, joint: nat, blendAllowed: bool :: t < SLOTS && t != slot ==>
                SlotSample(t, joint, blendAllowed) == old(SlotSample(t, joint, blendAllowed))
    {
      if slot < SLOTS {
        animations := animations[slot := null];
        forall t: nat | t < SLOTS
          ensures SlotValid(t)
        {
          assert old(SlotValid(t));
        }
        forall s: nat, t: nat | s < SLOTS && t < SLOTS && s != t
          ensures Apart(s, t)
        {
          assert old(Apart(s, t));
        }
      }
    }
  }
}
