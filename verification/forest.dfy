/**
 Parent chains over a skeleton's joints. A pose is composed with parent overrides, `(joint, new parent)` pairs: the
 poser lets the last pair of a joint win, while the subtree search reads the first.
 */
module Forest {
  import opened Wrappers

  type Parents = seq<Option<nat>>

  type Overrides = seq<(nat, nat)>

  function FirstOverride(overrides: Overrides, joint: nat): Option<nat> {
    if overrides == [] then None
    else if overrides[0].0 == joint then Some(overrides[0].1)
    else FirstOverride(overrides[1..], joint)
  }

  function LastOverride(overrides: Overrides, joint: nat): Option<nat> {
    if overrides == [] then None
    else
      var (child, parent) := overrides[|overrides| - 1];
      if child == joint then Some(parent) else LastOverride(overrides[..|overrides| - 1], joint)
  }

  function Or(a: Option<nat>, b: Option<nat>): Option<nat> { if a.Some? then a else b }

  /** The parents a pose is composed with. */
  function PosedParents(authored: Parents, overrides: Overrides): (parents: Parents)
    ensures |parents| == |authored|
  {
    seq(|authored|, i requires 0 <= i < |authored| => Or(LastOverride(overrides, i), authored[i]))
  }

  /** The parents the subtree search reads. */
  function SearchParents(authored: Parents, overrides: Overrides): (parents: Parents)
    ensures |parents| == |authored|
  {
    seq(|authored|, i requires 0 <= i < |authored| => Or(FirstOverride(overrides, i), authored[i]))
  }

  /** The chain of parents from `i` stays in range and comes to a root within `k` hops. */
  predicate Ends(parents: Parents, i: nat, k: nat)
    decreases k
  {
    i < |parents| && (parents[i].None? || (k > 0 && Ends(parents, parents[i].value, k - 1)))
  }

  lemma {:induction false} EndsLater(parents: Parents, i: nat, k: nat, k': nat)
    requires Ends(parents, i, k) && k <= k'
    ensures Ends(parents, i, k')
    decreases k
  {
    if parents[i].Some? {
      EndsLater(parents, parents[i].value, k - 1, k' - 1);
    }
  }

  ghost predicate Rooted(parents: Parents, i: nat) { exists k: nat :: Ends(parents, i, k) }

  /** When every chain ends, all of them end within some one height: the poser's termination needs nothing more. */
  lemma {:induction false} CommonHeight(parents: Parents, upTo: nat) returns (height: nat)
    requires upTo <= |parents| && forall i: nat :: i < upTo ==> Rooted(parents, i)
    ensures forall i: nat :: i < upTo ==> Ends(parents, i, height)
    decreases upTo
  {
    height := 0;
    if upTo > 0 {
      var below := CommonHeight(parents, upTo - 1);
      assert Rooted(parents, upTo - 1);
      var k: nat :| Ends(parents, upTo - 1, k);
      height := if below < k then k else below;
      forall i: nat | i < upTo
        ensures Ends(parents, i, height)
      {
        EndsLater(parents, i, if i < upTo - 1 then below else k, height);
      }
    }
  }

  /** Following parents from `x` comes to `ancestor` within `k` hops, or `x` is it. */
  predicate Under(parents: Parents, x: nat, ancestor: nat, k: nat)
    decreases k
  {
    x == ancestor
    || (k > 0 && x < |parents| && parents[x].Some? && Under(parents, parents[x].value, ancestor, k - 1))
  }

  ghost predicate Below(parents: Parents, x: nat, ancestor: nat) { exists k: nat :: Under(parents, x, ancestor, k) }

  lemma {:induction false} UnderTrans(parents: Parents, x: nat, y: nat, z: nat, k: nat, l: nat)
    requires Under(parents, x, y, k) && Under(parents, y, z, l)
    ensures Below(parents, x, z)
    decreases k
  {
    if x == y {
      assert Under(parents, x, z, l);
    } else {
      UnderTrans(parents, parents[x].value, y, z, k - 1, l);
      var m: nat :| Under(parents, parents[x].value, z, m);
      assert Under(parents, x, z, m + 1);
    }
  }

  lemma BelowTrans(parents: Parents, x: nat, y: nat, z: nat)
    requires Below(parents, x, y) && Below(parents, y, z)
    ensures Below(parents, x, z)
  {
    var k: nat :| Under(parents, x, y, k);
    var l: nat :| Under(parents, y, z, l);
    UnderTrans(parents, x, y, z, k, l);
  }

  lemma BelowSelf(parents: Parents, x: nat)
    ensures Below(parents, x, x)
  {
    assert Under(parents, x, x, 0);
  }

  lemma BelowParent(parents: Parents, x: nat)
    requires x < |parents| && parents[x].Some?
    ensures Below(parents, x, parents[x].value)
  {
    assert Under(parents, x, parents[x].value, 1);
  }

  /** Off the ancestor itself, a joint is below it exactly when its parent is. */
  lemma BelowStep(parents: Parents, x: nat, ancestor: nat)
    requires x != ancestor
    ensures Below(parents, x, ancestor)
            <==> x < |parents| && parents[x].Some? && Below(parents, parents[x].value, ancestor)
  {
    if Below(parents, x, ancestor) {
      var k: nat :| Under(parents, x, ancestor, k);
      assert Under(parents, parents[x].value, ancestor, k - 1);
    }
    if x < |parents| && parents[x].Some? && Below(parents, parents[x].value, ancestor) {
      BelowParent(parents, x);
      BelowTrans(parents, x, parents[x].value, ancestor);
    }
  }

  // ---- cycles ----------------------------------------------------------------------------------------------------

  predicate Distinct(s: seq<nat>) { forall a, b :: 0 <= a < b < |s| ==> s[a] != s[b] }

  /** A list without repeats whose members are joints, `root` aside, is no longer than the joints and one more. */
  lemma {:induction false} DistinctBound(s: seq<nat>, members: set<nat>)
    requires Distinct(s) && forall x :: x in s ==> x in members
    ensures |s| <= |members|
    decreases |s|
  {
    if s != [] {
      var last := s[|s| - 1];
      var front := s[..|s| - 1];
      assert forall x :: x in front ==> x in members - {last};
      DistinctBound(front, members - {last});
    }
  }

  function Joints(n: nat): (joints: set<nat>)
    ensures |joints| == n && forall x: nat :: x in joints <==> x < n
  {
    if n == 0 then {} else Joints(n - 1) + {n - 1}
  }

  /** Some joint is its own ancestor. */
  ghost predicate OnCycle(parents: Parents, x: nat) {
    x < |parents| && parents[x].Some? && Below(parents, parents[x].value, x)
  }

  lemma {:induction false} RootedHasNoCycle(parents: Parents, x: nat, k: nat)
    requires Ends(parents, x, k)
    ensures !OnCycle(parents, x)
    decreases k
  {
    if OnCycle(parents, x) {
      var p := parents[x].value;
      RootedHasNoCycle(parents, p, k - 1);
      if p != x {
        BelowStep(parents, p, x);
        BelowParent(parents, x);
        BelowTrans(parents, parents[p].value, x, p);
      }
    }
  }

  /** Every parent is a joint. A cycle of parents is allowed. */
  predicate InRange(parents: Parents) {
    forall i: nat :: i < |parents| && parents[i].Some? ==> parents[i].value < |parents|
  }

  lemma ParentIsNew(parents: Parents, x: nat, s: nat)
    requires x < |parents| && parents[x].Some? && !OnCycle(parents, x) && Below(parents, s, x)
    ensures s != parents[x].value
  {
  }

  lemma {:induction false} SelfLoopEnds(parents: Parents, x: nat, a: nat, k: nat)
    requires x < |parents| && parents[x] == Some(x) && Under(parents, x, a, k)
    ensures a == x
    decreases k
  {
    if x != a {
      SelfLoopEnds(parents, x, a, k - 1);
    }
  }

  /** The walk up from `x` past joints already seen, all of them below `x`. */
  lemma {:induction false} WalkEnds(parents: Parents, seen: seq<nat>, x: nat)
    requires InRange(parents) && forall i: nat :: i < |parents| ==> !OnCycle(parents, i)
    requires x < |parents| && Distinct(seen) && x !in seen
    requires forall s :: s in seen ==> s < |parents| && Below(parents, s, x)
    ensures Rooted(parents, x)
    decreases |parents| - |seen|
  {
    hide Below, OnCycle;
    if parents[x].None? {
      assert Ends(parents, x, 0);
    } else {
      var p := parents[x].value;
      var more := seen + [x];
      DistinctBound(more, Joints(|parents|));
      BelowSelf(parents, x);
      BelowParent(parents, x);
      forall s | s in more
        ensures Below(parents, s, p) && s != p
      {
        BelowTrans(parents, s, x, p);
        ParentIsNew(parents, x, s);
      }
      WalkEnds(parents, more, p);
      var k: nat :| Ends(parents, p, k);
      assert Ends(parents, x, k + 1);
    }
  }

  /** Every chain ends exactly when every parent is a joint and no joint is its own ancestor. */
  lemma AllRootedIff(parents: Parents)
    ensures (forall i: nat :: i < |parents| ==> Rooted(parents, i))
            <==> InRange(parents) && forall x: nat :: x < |parents| ==> !OnCycle(parents, x)
  {
    if forall i: nat :: i < |parents| ==> Rooted(parents, i) {
      forall x: nat | x < |parents|
        ensures !OnCycle(parents, x) && (parents[x].Some? ==> parents[x].value < |parents|)
      {
        assert Rooted(parents, x);
        var k: nat :| Ends(parents, x, k);
        RootedHasNoCycle(parents, x, k);
        assert parents[x].Some? ==> Ends(parents, parents[x].value, k - 1);
      }
    }
    if InRange(parents) && forall x: nat :: x < |parents| ==> !OnCycle(parents, x) {
      forall i: nat | i < |parents|
        ensures Rooted(parents, i)
      {
        WalkEnds(parents, [], i);
      }
    }
  }

  // ---- overrides that agree --------------------------------------------------------------------------------------

  /** No joint names two different parents: what makes the poser and the subtree search read the same forest. */
  predicate OverridesAgree(overrides: Overrides, joints: nat) {
    forall joint: nat :: joint < joints ==> FirstOverride(overrides, joint) == LastOverride(overrides, joint)
  }

  lemma {:induction false} OverrideIsListed(overrides: Overrides, joint: nat)
    ensures FirstOverride(overrides, joint).Some? ==> (joint, FirstOverride(overrides, joint).value) in overrides
    ensures LastOverride(overrides, joint).Some? ==> (joint, LastOverride(overrides, joint).value) in overrides
    ensures FirstOverride(overrides, joint).None? ==> forall o :: o in overrides ==> o.0 != joint
    ensures LastOverride(overrides, joint).None? ==> forall o :: o in overrides ==> o.0 != joint
    decreases |overrides|
  {
    if overrides != [] {
      OverrideIsListed(overrides[1..], joint);
      OverrideIsListed(overrides[..|overrides| - 1], joint);
      assert overrides == [overrides[0]] + overrides[1..];
      assert overrides == overrides[..|overrides| - 1] + [overrides[|overrides| - 1]];
    }
  }

  /** Distinct children are enough for the two readings to agree. */
  lemma DistinctChildrenAgree(overrides: Overrides, joints: nat)
    requires forall a, b :: 0 <= a < b < |overrides| ==> overrides[a].0 != overrides[b].0
    ensures OverridesAgree(overrides, joints)
  {
    forall joint: nat | joint < joints
      ensures FirstOverride(overrides, joint) == LastOverride(overrides, joint)
    {
      OverrideIsListed(overrides, joint);
    }
  }

  lemma AgreeingParents(authored: Parents, overrides: Overrides)
    requires OverridesAgree(overrides, |authored|)
    ensures SearchParents(authored, overrides) == PosedParents(authored, overrides)
  {
  }
}
