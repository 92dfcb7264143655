/**
 The single-pass posers: one sweep over the bones in filing order, each bone multiplying its parent's matrix by its
 own local one. A bone filed before its parent meets the identity where the parent's matrix should be.
 */
module Bones {
  import opened Wrappers
  import opened Matrix

  const PARENT_ROOT: nat := 0xFF

  datatype Bone = Bone(parent: nat, rot: Quat, trans: Vec3)

  datatype BoneLocal = BoneLocal(rotation: Quat, translation: Vec3, scale: Vec3)

  type Overrides = seq<Option<BoneLocal>>

  predicate IsRoot(bones: seq<Bone>, i: nat)
    requires i < |bones|
  {
    bones[i].parent == PARENT_ROOT || bones[i].parent == i || bones[i].parent >= |bones|
  }

  function OverrideAt(overrides: Overrides, i: nat): Option<BoneLocal> {
    if i < |overrides| then overrides[i] else None
  }

  // ---- the local matrices of the three posers ---------------------------------------------------------------------

  function BindLocal(bone: Bone): Mat4 { FromQuatTrans(bone.rot, bone.trans) }

  /** `pose_world`: an override replaces the bind data. */
  function ReplacedLocal(bone: Bone, override: Option<BoneLocal>): Mat4 {
    match override
    case None => BindLocal(bone)
    case Some(o) => FromQuatTransScale(o.rotation, o.translation, o.scale)
  }

  /** `pose_world_anim`: an override is added to the bind translation and turns the bind rotation. */
  function AnimatedLocal(bone: Bone, override: Option<BoneLocal>): Mat4 {
    match override
    case None => BindLocal(bone)
    case Some(o) => FromQuatTransScale(QuatMul(o.rotation, bone.rot), Add(bone.trans, o.translation), o.scale)
  }

  function BindLocals(bones: seq<Bone>): seq<Mat4> {
    seq(|bones|, i requires 0 <= i < |bones| => BindLocal(bones[i]))
  }

  function ReplacedLocals(bones: seq<Bone>, overrides: Overrides): seq<Mat4> {
    seq(|bones|, i requires 0 <= i < |bones| => ReplacedLocal(bones[i], OverrideAt(overrides, i)))
  }

  function AnimatedLocals(bones: seq<Bone>, overrides: Overrides): seq<Mat4> {
    seq(|bones|, i requires 0 <= i < |bones| => AnimatedLocal(bones[i], OverrideAt(overrides, i)))
  }

  // ---- the sweep --------------------------------------------------------------------------------------------------

  /** What one sweep in filing order leaves at bone `i`. */
  function World(bones: seq<Bone>, locals: seq<Mat4>, i: nat): Mat4
    requires |locals| == |bones| && i < |bones|
  {
    if IsRoot(bones, i) || bones[i].parent > i then locals[i]
    else Mul(World(bones, locals, bones[i].parent), locals[i])
  }

  lemma SweepStep(bones: seq<Bone>, locals: seq<Mat4>, i: nat)
    requires |locals| == |bones| && i < |bones|
    ensures !IsRoot(bones, i) ==>
              World(bones, locals, i)
              == Mul(if bones[i].parent < i then World(bones, locals, bones[i].parent) else IDENTITY, locals[i])
  {
    hide Mul;
    MulIdentity(locals[i]);
  }

  predicate Posed(bones: seq<Bone>, locals: seq<Mat4>, world: seq<Mat4>) {
    |world| == |locals| == |bones| && forall i: nat :: i < |bones| ==> world[i] == World(bones, locals, i)
  }

  method PoseWorld(bones: seq<Bone>, overrides: Overrides) returns (world: seq<Mat4>)
    ensures Posed(bones, ReplacedLocals(bones, overrides), world)
  {
    var n := |bones|;
    hide Mul, ReplacedLocal;
    ghost var locals := ReplacedLocals(bones, overrides);
    var out := new Mat4[n](_ => IDENTITY);
    for i := 0 to n
      invariant forall j: nat :: j < i ==> out[j] == World(bones, locals, j)
      invariant forall j: nat :: i <= j < n ==> out[j] == IDENTITY
    {
      var local := ReplacedLocal(bones[i], OverrideAt(overrides, i));
      var p := bones[i].parent;
      var isRoot := bones[i].parent == PARENT_ROOT || p == i || p >= n;
      SweepStep(bones, locals, i);
      out[i] := if isRoot then local else Mul(out[p], local);
    }
    world := out[..];
  }

  method PoseWorldAnim(bones: seq<Bone>, overrides: Overrides) returns (world: seq<Mat4>)
    ensures Posed(bones, AnimatedLocals(bones, overrides), world)
  {
    var n := |bones|;
    hide Mul, AnimatedLocal;
    ghost var locals := AnimatedLocals(bones, overrides);
    var out := new Mat4[n](_ => IDENTITY);
    for i := 0 to n
      invariant forall j: nat :: j < i ==> out[j] == World(bones, locals, j)
      invariant forall j: nat :: i <= j < n ==> out[j] == IDENTITY
    {
      var local := AnimatedLocal(bones[i], OverrideAt(overrides, i));
      var p := bones[i].parent;
      var isRoot := bones[i].parent == PARENT_ROOT || p == i || p >= n;
      SweepStep(bones, locals, i);
      out[i] := if isRoot then local else Mul(out[p], local);
    }
    world := out[..];
  }

  method BindPoseWorld(bones: seq<Bone>) returns (world: seq<Mat4>)
    ensures Posed(bones, BindLocals(bones), world)
  {
    var n := |bones|;
    hide Mul, BindLocal;
    ghost var locals := BindLocals(bones);
    var out := new Mat4[n](_ => IDENTITY);
    for i := 0 to n
      invariant forall j: nat :: j < i ==> out[j] == World(bones, locals, j)
      invariant forall j: nat :: i <= j < n ==> out[j] == IDENTITY
    {
      var local := BindLocal(bones[i]);
      var p := bones[i].parent;
      var isRoot := bones[i].parent == PARENT_ROOT || p == i || p >= n;
      SweepStep(bones, locals, i);
      out[i] := if isRoot then local else Mul(out[p], local);
    }
    world := out[..];
  }

  // ---- chains -----------------------------------------------------------------------------------------------------

  /** Every bone that has a parent is filed after it. */
  predicate ParentsFirst(bones: seq<Bone>) {
    forall i: nat :: i < |bones| && !IsRoot(bones, i) ==> bones[i].parent < i
  }

  /** The bones from the root of `i`'s chain down to `i`. */
  function RootPath(bones: seq<Bone>, i: nat): (path: seq<nat>)
    requires ParentsFirst(bones) && i < |bones|
    ensures forall m :: 0 <= m < |path| ==> path[m] < |bones|
  {
    if IsRoot(bones, i) then [i] else RootPath(bones, bones[i].parent) + [i]
  }

  function Product(locals: seq<Mat4>, path: seq<nat>): Mat4
    requires forall m :: 0 <= m < |path| ==> path[m] < |locals|
  {
    if path == [] then IDENTITY else Mul(locals[path[0]], Product(locals, path[1..]))
  }

  lemma {:induction false} ProductLast(locals: seq<Mat4>, path: seq<nat>, i: nat)
    requires i < |locals| && forall m :: 0 <= m < |path| ==> path[m] < |locals|
    ensures Product(locals, path + [i]) == Mul(Product(locals, path), locals[i])
    decreases |path|
  {
    hide Mul;
    if path == [] {
      assert (path + [i])[1..] == [];
      MulIdentity(locals[i]);
    } else {
      assert (path + [i])[1..] == path[1..] + [i];
      ProductLast(locals, path[1..], i);
      MulAssoc(locals[path[0]], Product(locals, path[1..]), locals[i]);
    }
  }

  /** With parents filed first, each bone stands at the product of the local matrices down its chain. */
  lemma {:induction false} WorldIsChainProduct(bones: seq<Bone>, locals: seq<Mat4>, i: nat)
    requires ParentsFirst(bones) && |locals| == |bones| && i < |bones|
    ensures World(bones, locals, i) == Product(locals, RootPath(bones, i))
  {
    hide Mul;
    if IsRoot(bones, i) {
      assert [i][1..] == [];
      MulIdentity(locals[i]);
    } else {
      WorldIsChainProduct(bones, locals, bones[i].parent);
      ProductLast(locals, RootPath(bones, bones[i].parent), i);
    }
  }

  /** Bone `i` stands where its parent's matrix takes its local one. */
  predicate HangsFromParent(bones: seq<Bone>, locals: seq<Mat4>, i: nat)
    requires |locals| == |bones| && i < |bones| && !IsRoot(bones, i)
  {
    World(bones, locals, i) == Mul(World(bones, locals, bones[i].parent), locals[i])
  }

  lemma {:induction false} StepsAddUp(bones: seq<Bone>, locals: seq<Mat4>, i: nat) returns (steps: nat)
    requires |locals| == |bones| && i < |bones|
    requires forall j: nat :: j < |bones| ==> locals[j] == Translation(Vec3(1.0, 0.0, 0.0))
    ensures steps > 0 && World(bones, locals, i) == Translation(Vec3(steps as real, 0.0, 0.0))
    decreases i
  {
    steps := 1;
    if !IsRoot(bones, i) && bones[i].parent < i {
      var before := StepsAddUp(bones, locals, bones[i].parent);
      steps := before + 1;
    }
  }

  /** One sweep is enough exactly for skeletons that file every parent first: any other loses some pose. */
  lemma OneSweepIffParentsFirst(bones: seq<Bone>)
    ensures ParentsFirst(bones)
            <==> forall locals: seq<Mat4>, i: nat :: |locals| == |bones| && i < |bones| && !IsRoot(bones, i) ==>
                   HangsFromParent(bones, locals, i)
  {
    if !ParentsFirst(bones) {
      var i: nat :| i < |bones| && !IsRoot(bones, i) && bones[i].parent > i;
      var locals := seq(|bones|, _ => Translation(Vec3(1.0, 0.0, 0.0)));
      var here := StepsAddUp(bones, locals, i);
      var parent := StepsAddUp(bones, locals, bones[i].parent);
      assert World(bones, locals, i) == locals[i];
      assert !HangsFromParent(bones, locals, i);
    }
  }

  // ---- overrides and rigid poses ----------------------------------------------------------------------------------

  function Times3(a: Vec3, b: Vec3): Vec3 { Vec3(a.x * b.x, a.y * b.y, a.z * b.z) }

  lemma ScaledDir(q: Quat, t: Vec3, s: Vec3, v: Vec3)
    ensures TransformPoint(FromQuatTransScale(q, t, s), v) == TransformPoint(FromQuatTrans(q, t), Times3(s, v))
  {
    hide FromQuatTrans;
    var m := FromQuatTrans(q, t);
    ScaledRow(m.r0, s, v);
    ScaledRow(m.r1, s, v);
    ScaledRow(m.r2, s, v);
    hide DotDir, ScaleRow, Times3;
  }

  lemma ScaledRow(r: Row, s: Vec3, v: Vec3)
    ensures DotDir(ScaleRow(r, s), v) == DotDir(r, Times3(s, v)) && ScaleRow(r, s).w == r.w
  {
    ScaledTerm(r.x, s.x, v.x, Times3(s, v).x);
    ScaledTerm(r.y, s.y, v.y, Times3(s, v).y);
    ScaledTerm(r.z, s.z, v.z, Times3(s, v).z);
  }

  lemma ScaledTerm(r: real, s: real, v: real, sv: real)
    requires sv == s * v
    ensures r * s * v == r * sv
  {
  }

  /** Bone `i` has override `o`. */
  predicate Overridden(overrides: Overrides, i: nat, o: BoneLocal) { i < |overrides| && overrides[i] == Some(o) }

  /** A replaced bone scales a point, turns it by the override's rotation and moves it by its translation. */
  lemma ReplacedMoves(bones: seq<Bone>, overrides: Overrides, i: nat, o: BoneLocal, p: Vec3)
    requires i < |bones| && Overridden(overrides, i, o) && IsUnit(o.rotation)
    ensures TransformPoint(ReplacedLocals(bones, overrides)[i], p)
            == Add(Spin(o.rotation, Times3(o.scale, p)), o.translation)
  {
    hide FromQuatTrans, FromQuatTransScale, Times3, Spin, IsUnit, TransformPoint;
    ScaledDir(o.rotation, o.translation, o.scale, p);
    UnitAction(o.rotation, o.translation, Times3(o.scale, p));
  }

  /**
   An animated bone scales a point, turns it by its bind rotation first and by the override's after, and moves it by
   both translations.
   */
  lemma AnimatedMoves(bones: seq<Bone>, overrides: Overrides, i: nat, o: BoneLocal, p: Vec3)
    requires i < |bones| && Overridden(overrides, i, o) && IsUnit(o.rotation) && IsUnit(bones[i].rot)
    ensures TransformPoint(AnimatedLocals(bones, overrides)[i], p)
            == Add(Spin(o.rotation, Spin(bones[i].rot, Times3(o.scale, p))), Add(bones[i].trans, o.translation))
  {
    hide FromQuatTrans, FromQuatTransScale, Times3, Spin, QuatMul, Norm2, Add, TransformPoint;
    var bone := bones[i];
    var both := QuatMul(o.rotation, bone.rot);
    NormMul(o.rotation, bone.rot);
    ScaledDir(both, Add(bone.trans, o.translation), o.scale, p);
    UnitAction(both, Add(bone.trans, o.translation), Times3(o.scale, p));
    SpinCompose(o.rotation, bone.rot, Times3(o.scale, p));
  }

  /** Every other bone turns a point by its bind rotation and moves it by its bind translation. */
  lemma BoundMoves(bones: seq<Bone>, overrides: Overrides, i: nat, p: Vec3)
    requires i < |bones| && IsUnit(bones[i].rot) && (i >= |overrides| || overrides[i].None?)
    ensures TransformPoint(ReplacedLocals(bones, overrides)[i], p) == Add(Spin(bones[i].rot, p), bones[i].trans)
    ensures TransformPoint(AnimatedLocals(bones, overrides)[i], p) == Add(Spin(bones[i].rot, p), bones[i].trans)
    ensures TransformPoint(BindLocals(bones)[i], p) == Add(Spin(bones[i].rot, p), bones[i].trans)
  {
    hide FromQuatTrans, Spin, IsUnit, TransformPoint;
    UnitAction(bones[i].rot, bones[i].trans, p);
  }

  /**
   A bone filed under 255, under itself, or under a number past the last bone stands alone; any other stands on what its
   parent's place holds when its turn comes.
   */
  lemma StandsOnParent(bones: seq<Bone>, locals: seq<Mat4>, i: nat)
    requires |locals| == |bones| && i < |bones|
    ensures var p := bones[i].parent;
            World(bones, locals, i)
            == if p == 255 || p == i || p >= |bones| then locals[i]
               else Mul(if p < i then World(bones, locals, p) else IDENTITY, locals[i])
  {
    hide Mul;
    MulIdentity(locals[i]);
  }

  /** With no overrides at all the three posers agree. */
  lemma NoOverridesAgree(bones: seq<Bone>, overrides: Overrides)
    requires forall i :: 0 <= i < |overrides| ==> overrides[i].None?
    ensures ReplacedLocals(bones, overrides) == BindLocals(bones)
    ensures AnimatedLocals(bones, overrides) == BindLocals(bones)
  {
    assert forall i: nat :: OverrideAt(overrides, i).None?;
  }

  const IDENTITY_OVERRIDE := BoneLocal(IDENTITY_QUAT, ZERO, UNIT_SCALE)

  lemma IdentityOverride(bone: Bone)
    ensures AnimatedLocal(bone, Some(IDENTITY_OVERRIDE)) == BindLocal(bone)
    ensures ReplacedLocal(bone, Some(BoneLocal(bone.rot, bone.trans, UNIT_SCALE))) == BindLocal(bone)
  {
    assert QuatMul(IDENTITY_QUAT, bone.rot) == bone.rot;
    assert Add(bone.trans, ZERO) == bone.trans;
  }

  /** The animated poser cannot tell an identity override from none. */
  lemma IdentityOverridesVanish(bones: seq<Bone>, overrides: Overrides, without: Overrides)
    requires |without| == |overrides|
    requires forall i :: 0 <= i < |overrides| ==>
                           without[i] == if overrides[i] == Some(IDENTITY_OVERRIDE) then None else overrides[i]
    ensures AnimatedLocals(bones, overrides) == AnimatedLocals(bones, without)
  {
    forall i | 0 <= i < |bones|
      ensures AnimatedLocal(bones[i], OverrideAt(overrides, i)) == AnimatedLocal(bones[i], OverrideAt(without, i))
    {
      IdentityOverride(bones[i]);
    }
  }

  /** The product of the bind rotations down `i`'s chain. */
  function ChainRotation(bones: seq<Bone>, i: nat): Quat
    requires i < |bones|
  {
    if IsRoot(bones, i) || bones[i].parent > i then bones[i].rot
    else QuatMul(ChainRotation(bones, bones[i].parent), bones[i].rot)
  }

  /** The bind pose of unit rotations is rigid: every bone's matrix is the frame of its chain's own unit rotation. */
  lemma {:induction false} BindPoseIsRigid(bones: seq<Bone>, i: nat)
    requires i < |bones| && forall j: nat :: j < |bones| ==> IsUnit(bones[j].rot)
    ensures IsUnit(ChainRotation(bones, i))
    ensures var world := World(bones, BindLocals(bones), i);
            world == FromQuatTrans(ChainRotation(bones, i), Origin(world))
  {
    hide Mul, QuatMul, Norm2;
    if !IsRoot(bones, i) && bones[i].parent < i {
      var p := bones[i].parent;
      BindPoseIsRigid(bones, p);
      QuatMulIsProduct(ChainRotation(bones, p), bones[i].rot,
                       Origin(World(bones, BindLocals(bones), p)), bones[i].trans);
    }
  }
}
