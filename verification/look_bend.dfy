/**
 Look bends: rigid turns of a posed skeleton's subtrees about their own joints, without recomposing the hierarchy.
 */
module LookBend {
  import opened Wrappers
  import opened Forest
  import opened Subtree
  import opened Matrix

  type Bend = (nat, Quat)

  function Negate(v: Vec3): Vec3 { Vec3(-v.x, -v.y, -v.z) }

  /** The rotation of space about `pivot`. */
  function AboutPivot(pivot: Vec3, rotation: Quat): Mat4 {
    Mul(Mul(Translation(pivot), FromQuatTrans(rotation, ZERO)), Translation(Negate(pivot)))
  }

  lemma AboutPivotFixesPivot(pivot: Vec3, rotation: Quat)
    ensures IsAffine(AboutPivot(pivot, rotation))
    ensures TransformPoint(AboutPivot(pivot, rotation), pivot) == pivot
  {
    hide Times, FromQuatTrans, TransformPoint;
    var turn := FromQuatTrans(rotation, ZERO);
    var (there, back) := (Translation(pivot), Translation(Negate(pivot)));
    TurnIsAffine(rotation);
    MulAffine(there, turn);
    MulAffine(Mul(there, turn), back);
    TransformMul(Mul(there, turn), back, pivot);
    TransformMul(there, turn, ZERO);
    TranslationMoves(pivot, ZERO);
    TranslationMoves(Negate(pivot), pivot);
  }

  /** A bend turns what it takes about the pivot: the pivot and, from it, the turned offset. */
  lemma TurnsAboutPivot(pivot: Vec3, rotation: Quat, p: Vec3)
    requires IsUnit(rotation)
    ensures TransformPoint(AboutPivot(pivot, rotation), p) == Add(pivot, Spin(rotation, Add(Negate(pivot), p)))
  {
    hide Times, FromQuatTrans, TransformPoint, Spin, IsUnit;
    var turn := FromQuatTrans(rotation, ZERO);
    var (there, back) := (Translation(pivot), Translation(Negate(pivot)));
    TurnIsAffine(rotation);
    MulAffine(there, turn);
    TransformMul(Mul(there, turn), back, p);
    TransformMul(there, turn, Add(Negate(pivot), p));
    TranslationMoves(Negate(pivot), p);
    UnitAction(rotation, ZERO, Add(Negate(pivot), p));
    TranslationMoves(pivot, Spin(rotation, Add(Negate(pivot), p)));
  }

  lemma TurnIsAffine(rotation: Quat)
    ensures IsAffine(FromQuatTrans(rotation, ZERO)) && TransformPoint(FromQuatTrans(rotation, ZERO), ZERO) == ZERO
  {
  }

  lemma TranslationMoves(t: Vec3, p: Vec3)
    ensures TransformPoint(Translation(t), p) == Add(t, p)
  {
  }

  /** The pose after one bend. */
  ghost function Bent(pose: seq<Mat4>, parents: Parents, joint: nat, rotation: Quat): (bent: seq<Mat4>)
    ensures |bent| == |pose|
  {
    if rotation == IDENTITY_QUAT || joint >= |pose| then pose
    else
      var turn := AboutPivot(Origin(pose[joint]), rotation);
      seq(|pose|, i requires 0 <= i < |pose| => if Below(parents, i, joint) then Mul(turn, pose[i]) else pose[i])
  }

  ghost function BentAll(pose: seq<Mat4>, parents: Parents, bends: seq<Bend>): (bent: seq<Mat4>)
    ensures |bent| == |pose|
    decreases |bends|
  {
    if bends == [] then pose else BentAll(Bent(pose, parents, bends[0].0, bends[0].1), parents, bends[1..])
  }

  method RotateAboutPivot(pose: array<Mat4>, authored: Parents, overrides: Overrides, joint: nat, blended: Quat)
    modifies pose
    ensures pose[..] == Bent(old(pose[..]), SearchParents(authored, overrides), joint, blended)
  {
    if blended == IDENTITY_QUAT {
      return;
    }
    if joint >= pose.Length {
      return;
    }
    hide Times, Below, FromQuatTrans;
    var turn := AboutPivot(Origin(pose[joint]), blended);
    var subtree := ComposedSubtree(authored, overrides, joint);
    ghost var before := pose[..];
    for m := 0 to |subtree|
      invariant forall i: nat :: i < pose.Length ==>
                  pose[i] == if i in subtree[..m] then Mul(turn, before[i]) else before[i]
    {
      var j := subtree[m];
      assert subtree[..m + 1] == subtree[..m] + [j];
      assert j !in subtree[..m];
      if j < pose.Length {
        pose[j] := Mul(turn, pose[j]);
      }
    }
    assert subtree[..|subtree|] == subtree;
  }

  /** `slerp` turns a full bend into its weighted share of one. */
  method ApplyBends(pose: array<Mat4>, authored: Parents, overrides: Overrides, bends: seq<Bend>, weight: real,
                    slerp: (Quat, real) -> Quat)
    modifies pose
    ensures weight <= 0.0 ==> pose[..] == old(pose[..])
    ensures weight > 0.0 ==>
              pose[..] == BentAll(old(pose[..]), SearchParents(authored, overrides),
                                  Blended(bends, if weight < 1.0 then weight else 1.0, slerp))
  {
    if weight <= 0.0 {
      return;
    }
    ghost var parents := SearchParents(authored, overrides);
    var share := if weight < 1.0 then weight else 1.0;
    ghost var blended := Blended(bends, share, slerp);
    for b := 0 to |bends|
      invariant BentAll(pose[..], parents, blended[b..]) == BentAll(old(pose[..]), parents, blended)
    {
      RotateAboutPivot(pose, authored, overrides, bends[b].0, slerp(bends[b].1, share));
      assert blended[b..][1..] == blended[b + 1..];
    }
  }

  function Blended(bends: seq<Bend>, share: real, slerp: (Quat, real) -> Quat): seq<Bend> {
    seq(|bends|, b requires 0 <= b < |bends| => (bends[b].0, slerp(bends[b].1, share)))
  }

  // ---- what a run of bends keeps ----------------------------------------------------------------------------------

  /** A bend leaves its own joint's place alone, and an affine pose stays affine. */
  lemma BendKeepsPivot(pose: seq<Mat4>, parents: Parents, joint: nat, rotation: Quat)
    requires joint < |pose| && forall i: nat :: i < |pose| ==> IsAffine(pose[i])
    ensures var bent := Bent(pose, parents, joint, rotation);
            && Origin(bent[joint]) == Origin(pose[joint])
            && forall i: nat :: i < |pose| ==> IsAffine(bent[i])
  {
    hide Mul, AboutPivot, TransformPoint;
    var turn := AboutPivot(Origin(pose[joint]), rotation);
    AboutPivotFixesPivot(Origin(pose[joint]), rotation);
    forall i: nat | i < |pose|
      ensures IsAffine(Mul(turn, pose[i])) && Origin(Mul(turn, pose[i])) == TransformPoint(turn, Origin(pose[i]))
    {
      MulAffine(turn, pose[i]);
    }
    BelowSelf(parents, joint);
  }

  lemma {:induction false} OutsideUntouched(pose: seq<Mat4>, parents: Parents, bends: seq<Bend>, j: nat)
    requires j < |pose| && forall b :: 0 <= b < |bends| ==> !Below(parents, j, bends[b].0)
    ensures BentAll(pose, parents, bends)[j] == pose[j]
    decreases |bends|
  {
    if bends != [] {
      OutsideUntouched(Bent(pose, parents, bends[0].0, bends[0].1), parents, bends[1..], j);
    }
  }

  predicate Unbent(bends: seq<Bend>, j: nat) { forall b :: 0 <= b < |bends| ==> bends[b].0 != j }

  /** Every bend but one of `j` itself turns `j` and `p` together or neither. */
  ghost predicate TurnTogether(parents: Parents, j: nat, p: nat) {
    forall c: nat :: c != j ==> (Below(parents, j, c) <==> Below(parents, p, c))
  }

  /** What turns together keeps its place to one another through any run of bends. */
  lemma {:induction false} TogetherKept(pose: seq<Mat4>, parents: Parents, bends: seq<Bend>, j: nat, p: nat,
                                        local: Mat4)
    requires j < |pose| && p < |pose| && Unbent(bends, j) && TurnTogether(parents, j, p)
    requires pose[j] == Mul(pose[p], local)
    ensures var bent := BentAll(pose, parents, bends); bent[j] == Mul(bent[p], local)
    decreases |bends|
  {
    hide Times, AboutPivot, Below;
    if bends != [] {
      var (joint, rotation) := bends[0];
      var once := Bent(pose, parents, joint, rotation);
      if joint < |pose| {
        MulAssoc(AboutPivot(Origin(pose[joint]), rotation), pose[p], local);
      }
      TogetherKept(once, parents, bends[1..], j, p, local);
    }
  }

  /** A joint no bend names keeps its place in its parent's frame through any run of bends. */
  lemma RelativeKept(pose: seq<Mat4>, parents: Parents, bends: seq<Bend>, j: nat, local: Mat4)
    requires j < |pose| && j < |parents| && parents[j].Some? && parents[j].value < |pose| && Unbent(bends, j)
    requires pose[j] == Mul(pose[parents[j].value], local)
    ensures var bent := BentAll(pose, parents, bends); bent[j] == Mul(bent[parents[j].value], local)
  {
    hide Below, BentAll, Mul;
    forall c: nat | c != j
      ensures Below(parents, j, c) <==> Below(parents, parents[j].value, c)
    {
      BelowStep(parents, j, c);
    }
    TogetherKept(pose, parents, bends, j, parents[j].value, local);
  }

  /** One bend moves a joint's place along with its parent, its own joint's too. */
  lemma BendKeepsAttached(pose: seq<Mat4>, parents: Parents, joint: nat, rotation: Quat, j: nat, offset: Vec3)
    requires forall i: nat :: i < |pose| ==> IsAffine(pose[i])
    requires j < |pose| && j < |parents| && parents[j].Some? && parents[j].value < |pose|
    requires Origin(pose[j]) == TransformPoint(pose[parents[j].value], offset)
    ensures var bent := Bent(pose, parents, joint, rotation);
            && Origin(bent[j]) == TransformPoint(bent[parents[j].value], offset)
            && forall i: nat :: i < |pose| ==> IsAffine(bent[i])
  {
    hide Mul, AboutPivot, TransformPoint;
    if joint < |pose| {
      var p := parents[j].value;
      var turn := AboutPivot(Origin(pose[joint]), rotation);
      BendKeepsPivot(pose, parents, joint, rotation);
      if joint != j {
        BelowStep(parents, j, joint);
      }
      AboutPivotFixesPivot(Origin(pose[joint]), rotation);
      MulAffine(turn, pose[j]);
      TransformMul(turn, pose[p], offset);
    }
  }

  /** No run of bends takes a joint, bent or not, off the place it hangs at in its parent's frame. */
  lemma {:induction false} BonesStayAttached(pose: seq<Mat4>, parents: Parents, bends: seq<Bend>, j: nat, offset: Vec3)
    requires forall i: nat :: i < |pose| ==> IsAffine(pose[i])
    requires j < |pose| && j < |parents| && parents[j].Some? && parents[j].value < |pose|
    requires Origin(pose[j]) == TransformPoint(pose[parents[j].value], offset)
    ensures var bent := BentAll(pose, parents, bends);
            Origin(bent[j]) == TransformPoint(bent[parents[j].value], offset)
    decreases |bends|
  {
    hide Bent, TransformPoint;
    if bends != [] {
      BendKeepsAttached(pose, parents, bends[0].0, bends[0].1, j, offset);
      BonesStayAttached(Bent(pose, parents, bends[0].0, bends[0].1), parents, bends[1..], j, offset);
    }
  }

  // ---- a turn that shows -----------------------------------------------------------------------------------------

  const HALF_TURN := Quat(1.0, 0.0, 0.0, 0.0)

  lemma NoTranslation()
    ensures Translation(ZERO) == IDENTITY && Negate(ZERO) == ZERO
  {
  }

  lemma FlipsY(q: Quat)
    requires q.x == 1.0 && q.y == 0.0 && q.z == 0.0 && q.w == 0.0
    ensures FromQuatTrans(q, ZERO).r1.y == -1.0
  {
    assert q.x * q.x == 1.0 && q.z * q.z == 0.0;
  }

  lemma HalfTurnTurns()
    ensures Mul(AboutPivot(ZERO, HALF_TURN), IDENTITY) != IDENTITY
  {
    hide Mul, Translation, FromQuatTrans, Negate;
    FlipsY(HALF_TURN);
    NoTranslation();
    MulIdentity(FromQuatTrans(HALF_TURN, ZERO));
    MulIdentity(AboutPivot(ZERO, HALF_TURN));
  }
}
