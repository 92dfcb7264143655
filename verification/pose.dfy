/**
 The multi-pass poser. It tolerates children filed before their parents and re-parenting overrides by sweeping the
 joints until a sweep meets no joint whose parent is still missing.

 How a joint's transform is made from its parent's (animation record, bind data, root facing, mount) is a parameter
 here; what the poser owes for every such rule is that each joint ends up composed along its own parent chain.
 */
module Pose {
  import opened Wrappers
  import opened Forest

  /** The joint a mounted rider is pinned to. */
  const HIP_JOINT: nat := 2

  /** The arithmetic of one joint. */
  datatype Rules<!T, !M> = Rules(
    updateJoint: (nat, Option<T>) -> T,
    updateWithParentOverride: (nat, T) -> T,
    mount: Option<T>,
    toMatrix: T -> M,
    identity: M)

  /** One joint's transform, given its override, if it has one, and its effective parent's transform, if it has one. */
  function Joint<T, M>(rules: Rules<T, M>, i: nat, overridden: bool, parent: Option<T>): T
    requires overridden ==> parent.Some?
  {
    if overridden then rules.updateWithParentOverride(i, parent.value)
    else if i == HIP_JOINT && rules.mount.Some? then rules.mount.value
    else rules.updateJoint(i, parent)
  }

  /** Recursive composition along the joint's parent chain. */
  function World<T, M>(rules: Rules<T, M>, authored: Parents, overrides: Overrides, i: nat, k: nat): T
    requires Ends(PosedParents(authored, overrides), i, k)
    decreases k
  {
    var parent := PosedParents(authored, overrides)[i];
    var overridden := LastOverride(overrides, i).Some?;
    Joint(rules, i, overridden,
          if parent.None? then None else Some(World(rules, authored, overrides, parent.value, k - 1)))
  }

  lemma {:induction false} WorldFuel<T, M>(rules: Rules<T, M>, authored: Parents, overrides: Overrides, i: nat,
                                           k: nat, k': nat)
    requires Ends(PosedParents(authored, overrides), i, k) && Ends(PosedParents(authored, overrides), i, k')
    ensures World(rules, authored, overrides, i, k) == World(rules, authored, overrides, i, k')
    decreases k
  {
    var parent := PosedParents(authored, overrides)[i];
    if parent.Some? {
      WorldFuel(rules, authored, overrides, parent.value, k - 1, k' - 1);
    }
  }

  /** The working buffers a caller keeps between frames; every pose starts by clearing them. */
  class PoseScratch<T> {
    var jt: seq<Option<T>>
    var overrideParent: seq<Option<nat>>

    constructor ()
      ensures jt == [] && overrideParent == []
    {
      jt, overrideParent := [], [];
    }
  }

  class PoseOut<M> {
    var mats: seq<M>

    constructor ()
      ensures mats == []
    {
      mats := [];
    }
  }

  /** Joint `i` holds its chain's composition. */
  ghost predicate Placed<T, M>(rules: Rules<T, M>, authored: Parents, overrides: Overrides, i: nat, value: T) {
    exists k: nat :: Ends(PosedParents(authored, overrides), i, k) && value == World(rules, authored, overrides, i, k)
  }

  /** Whatever the buffers hold is right: a transform in `jt` is its joint's composition and `out` its matrix. */
  ghost predicate Sound<T, M>(rules: Rules<T, M>, authored: Parents, overrides: Overrides,
                              jt: seq<Option<T>>, mats: seq<M>)
  {
    && |jt| == |mats| == |authored|
    && forall i :: 0 <= i < |jt| && jt[i].Some? ==>
                     && Placed(rules, authored, overrides, i, jt[i].value)
                     && mats[i] == rules.toMatrix(jt[i].value)
  }

  lemma PlacedJoint<T, M>(rules: Rules<T, M>, authored: Parents, overrides: Overrides, i: nat, parent: Option<T>)
    requires i < |authored|
    requires var p := PosedParents(authored, overrides)[i];
             && (p.None? <==> parent.None?)
             && (p.Some? ==> Placed(rules, authored, overrides, p.value, parent.value))
    ensures LastOverride(overrides, i).Some? ==> parent.Some?
    ensures Placed(rules, authored, overrides, i, Joint(rules, i, LastOverride(overrides, i).Some?, parent))
  {
    var parents := PosedParents(authored, overrides);
    if parents[i].None? {
      assert Ends(parents, i, 0);
    } else {
      var p := parents[i].value;
      var k: nat :| Ends(parents, p, k) && parent.value == World(rules, authored, overrides, p, k);
      assert Ends(parents, i, k + 1);
    }
  }

  method CollectOverrides(overrides: Overrides, n: nat) returns (overrideParent: seq<Option<nat>>)
    ensures |overrideParent| == n
    ensures forall i :: 0 <= i < n ==> overrideParent[i] == LastOverride(overrides, i)
  {
    overrideParent := seq(n, _ => None);
    for o := 0 to |overrides|
      invariant |overrideParent| == n
      invariant forall i :: 0 <= i < n ==> overrideParent[i] == LastOverride(overrides[..o], i)
    {
      var (child, newParent) := overrides[o];
      if child < n {
        overrideParent := overrideParent[child := Some(newParent)];
      }
      assert overrides[..o + 1][..o] == overrides[..o];
    }
    assert overrides[..|overrides|] == overrides;
  }

  /**
   One sweep. It reports a missing parent exactly when it leaves a joint without a transform, and gives one to every
   joint whose parent had one. A sweep that reports nothing missing is possible only when every chain ends: over a
   cycle, or under a parent out of range, every sweep reports one and the poser goes on for ever.
   */
  method Sweep<T, M>(out: PoseOut<M>, scratch: PoseScratch<T>, authored: Parents, overrides: Overrides,
                     rules: Rules<T, M>)
    returns (hasMissingParent: bool)
    requires Sound(rules, authored, overrides, scratch.jt, out.mats)
    requires |scratch.overrideParent| == |authored|
    requires forall i :: 0 <= i < |authored| ==> scratch.overrideParent[i] == LastOverride(overrides, i)
    modifies out`mats, scratch`jt
    ensures Sound(rules, authored, overrides, scratch.jt, out.mats)
    ensures forall i :: 0 <= i < |authored| && old(scratch.jt[i].Some?) ==> scratch.jt[i] == old(scratch.jt[i])
    ensures forall i :: 0 <= i < |authored| ==>
              var p := PosedParents(authored, overrides)[i];
              (p.None? || (p.value < |authored| && old(scratch.jt)[p.value].Some?)) ==> scratch.jt[i].Some?
    ensures hasMissingParent <==> exists i :: 0 <= i < |authored| && scratch.jt[i].None?
    ensures !hasMissingParent ==>
              forall i :: 0 <= i < |authored| ==> Rooted(PosedParents(authored, overrides), i)
  {
    ghost var before := scratch.jt;
    var n := |authored|;
    hasMissingParent := false;
    for i := 0 to n
      invariant Sound(rules, authored, overrides, scratch.jt, out.mats)
      invariant forall j :: 0 <= j < n && before[j].Some? ==> scratch.jt[j] == before[j]
      invariant forall j :: i <= j < n ==> scratch.jt[j] == before[j]
      invariant forall j :: 0 <= j < i ==>
                  var p := PosedParents(authored, overrides)[j];
                  (p.None? || (p.value < n && before[p.value].Some?)) ==> scratch.jt[j].Some?
      invariant hasMissingParent ==> exists j :: 0 <= j < i && scratch.jt[j].None?
      invariant !hasMissingParent ==> forall j :: 0 <= j < i ==> scratch.jt[j].Some?
    {
      if scratch.jt[i].None? {
        var effectiveParent := Or(scratch.overrideParent[i], authored[i]);
        assert effectiveParent == PosedParents(authored, overrides)[i];
        ghost var jt := scratch.jt;
        if effectiveParent.Some? && (effectiveParent.value >= n || scratch.jt[effectiveParent.value].None?) {
          hasMissingParent := true;
        } else {
          var parent := if effectiveParent.Some? then scratch.jt[effectiveParent.value] else None;
          PlacedJoint(rules, authored, overrides, i, parent);
          var transform := Joint(rules, i, scratch.overrideParent[i].Some?, parent);
          out.mats := out.mats[i := rules.toMatrix(transform)];
          scratch.jt := scratch.jt[i := Some(transform)];
          assert forall j :: 0 <= j < i ==> scratch.jt[j] == jt[j];
        }
      }
    }
    if !hasMissingParent {
      forall i | 0 <= i < n
        ensures Rooted(PosedParents(authored, overrides), i)
      {
        assert Placed(rules, authored, overrides, i, scratch.jt[i].value);
      }
    }
  }

  /**
   Joint `i`'s transform is the one the poser owes: under overrides from the parent the last of them names, at the joint
   a rider is pinned by from the mount, if there is one, and anywhere else from its own parent, or from none.
   */
  predicate ComposedAt<T(==), M>(rules: Rules<T, M>, authored: Parents, overrides: Overrides, t: seq<T>, i: nat)
    requires i < |t| == |authored|
  {
    match LastOverride(overrides, i)
    case Some(p) => p < |t| && t[i] == rules.updateWithParentOverride(i, t[p])
    case None =>
      if i == 2 && rules.mount.Some? then t[i] == rules.mount.value
      else
        match authored[i]
        case Some(p) => p < |t| && t[i] == rules.updateJoint(i, Some(t[p]))
        case None => t[i] == rules.updateJoint(i, None)
  }

  predicate Composed<T(==), M>(rules: Rules<T, M>, authored: Parents, overrides: Overrides, t: seq<T>) {
    |t| == |authored| && forall i: nat :: i < |t| ==> ComposedAt(rules, authored, overrides, t, i)
  }

  /** When every chain ends, composing along the chains is composing by those rules. */
  lemma WorldIsComposed<T, M>(rules: Rules<T, M>, authored: Parents, overrides: Overrides, height: nat, t: seq<T>)
    requires forall i :: 0 <= i < |authored| ==> Ends(PosedParents(authored, overrides), i, height)
    requires |t| == |authored| && forall i :: 0 <= i < |t| ==> t[i] == World(rules, authored, overrides, i, height)
    ensures Composed(rules, authored, overrides, t)
  {
    var parents := PosedParents(authored, overrides);
    forall i: nat | i < |t|
      ensures ComposedAt(rules, authored, overrides, t, i)
    {
      assert Ends(parents, i, height);
      if parents[i].Some? {
        WorldFuel(rules, authored, overrides, parents[i].value, height - 1, height);
      }
    }
  }

  /** Only one run of transforms is made by those rules. */
  lemma {:induction false} ComposedIsWorld<T, M>(rules: Rules<T, M>, authored: Parents, overrides: Overrides,
                                               t: seq<T>, i: nat, k: nat)
    requires Composed(rules, authored, overrides, t) && Ends(PosedParents(authored, overrides), i, k)
    ensures t[i] == World(rules, authored, overrides, i, k)
    decreases k
  {
    var parent := PosedParents(authored, overrides)[i];
    assert ComposedAt(rules, authored, overrides, t, i);
    if parent.Some? {
      ComposedIsWorld(rules, authored, overrides, t, parent.value, k - 1);
    }
  }

  /**
   When every chain ends within `height` hops, the poser stops after at most `height + 1` sweeps with every joint's
   matrix composed along its chain, whatever the order of the joints and whatever the buffers held before.
   */
  method PoseWorldMountedInto<T(!new), M(!new)>(out: PoseOut<M>, scratch: PoseScratch<T>, authored: Parents,
                                                overrides: Overrides, rules: Rules<T, M>, ghost height: nat)
    returns (ghost sweeps: nat)
    requires forall i :: 0 <= i < |authored| ==> Ends(PosedParents(authored, overrides), i, height)
    modifies out, scratch
    ensures |out.mats| == |authored|
    ensures forall i :: 0 <= i < |authored| ==>
              out.mats[i] == rules.toMatrix(World(rules, authored, overrides, i, height))
    ensures exists t: seq<T> :: Composed(rules, authored, overrides, t)
                                && forall i :: 0 <= i < |authored| ==> out.mats[i] == rules.toMatrix(t[i])
    ensures sweeps <= height + 1
  {
    var n := |authored|;
    ghost var parents := PosedParents(authored, overrides);
    out.mats := seq(n, _ => rules.identity);
    scratch.jt := seq(n, _ => None);
    scratch.overrideParent := CollectOverrides(overrides, n);
    sweeps := 0;
    var hasMissingParent := true;
    while hasMissingParent
      invariant Sound(rules, authored, overrides, scratch.jt, out.mats)
      invariant |scratch.overrideParent| == n
      invariant forall i :: 0 <= i < n ==> scratch.overrideParent[i] == LastOverride(overrides, i)
      invariant sweeps > 0 ==> forall i :: 0 <= i < n && Ends(parents, i, sweeps - 1) ==> scratch.jt[i].Some?
      invariant sweeps > 0 ==> (hasMissingParent <==> exists i :: 0 <= i < n && scratch.jt[i].None?)
      invariant !hasMissingParent ==> sweeps > 0
      invariant sweeps <= height + 1
      decreases height + 1 - sweeps, hasMissingParent
    {
      ghost var before := scratch.jt;
      assert sweeps <= height;
      hasMissingParent := Sweep(out, scratch, authored, overrides, rules);
      sweeps := sweeps + 1;
      forall i | 0 <= i < n && Ends(parents, i, sweeps - 1)
        ensures scratch.jt[i].Some?
      {
        if parents[i].Some? {
          assert Ends(parents, parents[i].value, sweeps - 2);
        }
      }
    }
    assert forall i :: 0 <= i < n ==> scratch.jt[i].Some?;
    forall i | 0 <= i < n
      ensures out.mats[i] == rules.toMatrix(World(rules, authored, overrides, i, height))
    {
      assert Placed(rules, authored, overrides, i, scratch.jt[i].value);
      var k: nat :| Ends(parents, i, k) && scratch.jt[i].value == World(rules, authored, overrides, i, k);
      WorldFuel(rules, authored, overrides, i, k, height);
    }
    ghost var t := seq(n, i requires 0 <= i < n => World(rules, authored, overrides, i, height));
    WorldIsComposed(rules, authored, overrides, height, t);
  }
}
