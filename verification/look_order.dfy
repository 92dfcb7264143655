/**
 Which bones a look bends, by how much, and in what order: every record is clamped against the same operands, one bone
 is bent once, and shallower bones first.
 */
module LookOrder {
  import opened Wrappers
  import opened Forest
  import opened Subtree
  import opened Matrix
  import opened LookBend
  import opened LookClamp

  // ---- depth ------------------------------------------------------------------------------------------------------

  /** Hops from a joint to its root. */
  function Hops(parents: Parents, j: nat, k: nat): nat
    requires Ends(parents, j, k)
    decreases k
  {
    if parents[j].None? then 0 else 1 + Hops(parents, parents[j].value, k - 1)
  }

  lemma {:induction false} HopsFuel(parents: Parents, j: nat, k: nat, l: nat)
    requires Ends(parents, j, k) && Ends(parents, j, l)
    ensures Hops(parents, j, k) == Hops(parents, j, l)
    decreases k
  {
    if parents[j].Some? {
      HopsFuel(parents, parents[j].value, k - 1, l - 1);
    }
  }

  function ChainOf(parents: Parents, j: nat, k: nat): (chain: seq<nat>)
    requires Ends(parents, j, k)
    ensures |chain| == Hops(parents, j, k) + 1 && forall x :: x in chain ==> x < |parents|
    decreases k
  {
    if parents[j].None? then [j] else [j] + ChainOf(parents, parents[j].value, k - 1)
  }

  lemma {:induction false} ChainIsAbove(parents: Parents, j: nat, k: nat, x: nat)
    requires Ends(parents, j, k) && x in ChainOf(parents, j, k)
    ensures Below(parents, j, x)
    decreases k
  {
    BelowSelf(parents, j);
    if parents[j].Some? && x != j {
      ChainIsAbove(parents, parents[j].value, k - 1, x);
      BelowStep(parents, j, x);
    }
  }

  lemma {:induction false} ChainIsDistinct(parents: Parents, j: nat, k: nat)
    requires Ends(parents, j, k)
    ensures Distinct(ChainOf(parents, j, k))
    decreases k
  {
    if parents[j].Some? {
      var rest := ChainOf(parents, parents[j].value, k - 1);
      ChainIsDistinct(parents, parents[j].value, k - 1);
      RootedHasNoCycle(parents, j, k);
      if j in rest {
        ChainIsAbove(parents, parents[j].value, k - 1, j);
      }
    }
  }

  /** A chain that ends has fewer hops than there are joints. */
  lemma HopsBound(parents: Parents, j: nat, k: nat)
    requires Ends(parents, j, k)
    ensures Hops(parents, j, k) < |parents|
  {
    ChainIsDistinct(parents, j, k);
    DistinctBound(ChainOf(parents, j, k), Joints(|parents|));
  }

  function ParentOf(parents: Parents, j: nat): Option<nat> { if j < |parents| then parents[j] else None }

  /** The walk up from `current`, `depth` hops above `joint`; a cycle or too many hops ends it. */
  function DepthFrom(parents: Parents, joint: nat, current: Option<nat>, depth: nat): (d: nat)
    requires depth <= |parents| + 1
    ensures d <= |parents| + 1
    decreases |parents| + 1 - depth
  {
    match current
    case None => depth
    case Some(parent) =>
      if parent == joint || depth > |parents| then depth
      else DepthFrom(parents, joint, ParentOf(parents, parent), depth + 1)
  }

  function DepthOf(parents: Parents, joint: nat): nat { DepthFrom(parents, joint, ParentOf(parents, joint), 0) }

  lemma {:induction false} DepthFromHops(parents: Parents, joint: nat, height: nat, at: nat, left: nat, depth: nat)
    requires Ends(parents, joint, height) && Ends(parents, at, left) && Below(parents, joint, at)
    requires Hops(parents, joint, height) == depth + Hops(parents, at, left)
    ensures depth <= |parents|
    ensures DepthFrom(parents, joint, ParentOf(parents, at), depth) == Hops(parents, joint, height)
    decreases left
  {
    HopsBound(parents, joint, height);
    if parents[at].Some? {
      var parent := parents[at].value;
      CycleNotRooted(parents, joint, height, at);
      BelowParent(parents, at);
      BelowTrans(parents, joint, at, parent);
      DepthFromHops(parents, joint, height, parent, left - 1, depth + 1);
    }
  }

  /** On every chain that ends the depth is the hops to the root. */
  lemma DepthIsHops(parents: Parents, joint: nat, k: nat)
    requires Ends(parents, joint, k)
    ensures DepthOf(parents, joint) == Hops(parents, joint, k)
  {
    BelowSelf(parents, joint);
    DepthFromHops(parents, joint, k, joint, k, 0);
  }

  /** The hops to the root when the chain ends; on any other authored parents it still comes back. */
  method JointDepth(parents: Parents, joint: nat) returns (depth: nat)
    ensures depth == DepthOf(parents, joint) && depth <= |parents| + 1
    ensures forall k: nat :: Ends(parents, joint, k) ==> depth == Hops(parents, joint, k)
  {
    depth := 0;
    var current := ParentOf(parents, joint);
    while current.Some?
      invariant depth <= |parents| + 1
      invariant DepthFrom(parents, joint, current, depth) == DepthOf(parents, joint)
      decreases |parents| + 2 - depth
    {
      var parent := current.value;
      if parent == joint || depth > |parents| {
        break;
      }
      depth := depth + 1;
      current := ParentOf(parents, parent);
    }
    forall k: nat | Ends(parents, joint, k)
      ensures depth == Hops(parents, joint, k)
    {
      DepthIsHops(parents, joint, k);
    }
  }

  lemma CycleNotRooted(parents: Parents, joint: nat, k: nat, at: nat)
    requires Ends(parents, joint, k) && Below(parents, joint, at)
    ensures ParentOf(parents, at) != Some(joint)
  {
    if ParentOf(parents, at) == Some(joint) {
      RootedHasNoCycle(parents, joint, k);
      BelowParent(parents, at);
      if at != joint {
        BelowStep(parents, joint, at);
        BelowTrans(parents, parents[joint].value, at, joint);
      }
      BelowSelf(parents, joint);
    }
  }

  /** An ancestor is strictly shallower. */
  lemma {:induction false} AncestorsAreShallower(parents: Parents, x: nat, a: nat, k: nat, l: nat, m: nat)
    requires Under(parents, x, a, m) && x != a && Ends(parents, x, k) && Ends(parents, a, l)
    ensures Hops(parents, a, l) < Hops(parents, x, k)
    decreases m
  {
    var p := parents[x].value;
    if p == a {
      HopsFuel(parents, a, k - 1, l);
    } else {
      AncestorsAreShallower(parents, p, a, k - 1, l, m - 1);
    }
  }

  // ---- the bones --------------------------------------------------------------------------------------------------

  /** What a model authors for one bend record: its limit, and the joint its slot references. */
  datatype Record = Record(limit: Option<LookAtLimit>, joint: Option<nat>)

  datatype LookBone = LookBone(joint: nat, limit: LookAtLimit)

  /** A record with both axes zero, no reference, or a joint past the skeleton's is dropped. */
  predicate Live(r: Record, joints: nat) {
    && r.limit.Some? && !(r.limit.value.xLimit == 0.0 && r.limit.value.yLimit == 0.0)
    && r.joint.Some? && r.joint.value < joints
  }

  /** One axis is enough to bend a bone by; a record with neither is not, whatever its scale. */
  lemma OneAxisIsEnough(x: real, y: real, scale: real, joint: nat, joints: nat)
    requires joint < joints
    ensures Live(Record(Some(LookAtLimit(x, y, scale)), Some(joint)), joints) <==> x != 0.0 || y != 0.0
  {
  }

  function LastLimit(records: seq<Record>, joints: nat, joint: nat): Option<LookAtLimit>
    decreases |records|
  {
    if records == [] then None
    else
      var last := records[|records| - 1];
      if Live(last, joints) && last.joint == Some(joint) then last.limit
      else LastLimit(records[..|records| - 1], joints, joint)
  }

  /** The joints live records name, in the order of the first record to name each. */
  function NamedJoints(records: seq<Record>, joints: nat): (named: seq<nat>)
    ensures forall joint: nat :: joint in named <==> LastLimit(records, joints, joint).Some?
    ensures Distinct(named)
    decreases |records|
  {
    if records == [] then []
    else
      var before := NamedJoints(records[..|records| - 1], joints);
      var last := records[|records| - 1];
      if Live(last, joints) && last.joint.value !in before then before + [last.joint.value] else before
  }

  predicate OneEach(bones: seq<LookBone>) { forall a, b :: 0 <= a < b < |bones| ==> bones[a].joint != bones[b].joint }

  /** Each named joint once, where it was first named, under the limit it was last given. */
  function Authored(records: seq<Record>, joints: nat): (bones: seq<LookBone>)
    ensures |bones| == |NamedJoints(records, joints)| && OneEach(bones)
    ensures forall i :: 0 <= i < |bones| ==> bones[i].joint == NamedJoints(records, joints)[i]
  {
    var named := NamedJoints(records, joints);
    seq(|named|, i requires 0 <= i < |named| =>
          assert named[i] in named; LookBone(named[i], LastLimit(records, joints, named[i]).value))
  }

  lemma AuthoredHolds(records: seq<Record>, joints: nat, joint: nat, limit: LookAtLimit)
    ensures LookBone(joint, limit) in Authored(records, joints) <==> LastLimit(records, joints, joint) == Some(limit)
  {
    var named := NamedJoints(records, joints);
    if LastLimit(records, joints, joint) == Some(limit) {
      assert joint in named;
      var i :| 0 <= i < |named| && named[i] == joint;
      assert Authored(records, joints)[i] == LookBone(joint, limit);
    }
  }

  lemma AuthoredStep(records: seq<Record>, k: nat, joints: nat)
    requires k < |records|
    ensures var before, after := Authored(records[..k], joints), Authored(records[..k + 1], joints);
            var r := records[k];
            if !Live(r, joints) then after == before
            else
              var bone := LookBone(r.joint.value, r.limit.value);
              if bone.joint in NamedJoints(records[..k], joints) then
                |after| == |before|
                && forall i :: 0 <= i < |before| ==>
                     after[i] == if before[i].joint == bone.joint then bone else before[i]
              else after == before + [bone]
  {
    assert records[..k + 1][..k] == records[..k];
    var named := NamedJoints(records[..k], joints);
    assert forall i :: 0 <= i < |named| ==> named[i] in named;
  }

  lemma NoneAuthored(joints: nat)
    ensures Authored([], joints) == []
  {
  }

  /** Every bone some live record names, once, under the last such record's limit, in the order first named. */
  method AuthoredBones(records: seq<Record>, joints: nat) returns (out: seq<LookBone>)
    ensures out == Authored(records, joints)
    ensures forall joint: nat, limit ::
              LookBone(joint, limit) in out <==> LastLimit(records, joints, joint) == Some(limit)
  {
    hide LastLimit, NamedJoints, Authored;
    out := [];
    assert out == Authored([], joints) by { NoneAuthored(joints); }
    for k := 0 to |records|
      invariant out == Authored(records[..k], joints)
    {
      var r := records[k];
      AuthoredStep(records, k, joints);
      if r.limit.None? || (r.limit.value.xLimit == 0.0 && r.limit.value.yLimit == 0.0)
         || r.joint.None? || r.joint.value >= joints {
        continue;
      }
      var bone := LookBone(r.joint.value, r.limit.value);
      var seen := FindBone(out, bone.joint);
      if seen < |out| {
        assert NamedJoints(records[..k], joints)[seen] == bone.joint;
        out := out[seen := bone];
      } else {
        assert bone.joint !in NamedJoints(records[..k], joints);
        out := out + [bone];
      }
    }
    assert records[..|records|] == records;
    forall joint: nat, limit
      ensures LookBone(joint, limit) in out <==> LastLimit(records, joints, joint) == Some(limit)
    {
      AuthoredHolds(records, joints, joint, limit);
    }
  }

  method FindBone(bones: seq<LookBone>, joint: nat) returns (at: nat)
    ensures at <= |bones| && (at < |bones| ==> bones[at].joint == joint)
    ensures forall i :: 0 <= i < at ==> bones[i].joint != joint
  {
    at := 0;
    while at < |bones| && bones[at].joint != joint
      invariant at <= |bones| && forall i :: 0 <= i < at ==> bones[i].joint != joint
    {
      at := at + 1;
    }
  }

  // ---- the bends --------------------------------------------------------------------------------------------------

  datatype Turn = Turn(joint: nat, rotation: Quat, depth: nat)

  /** Keeps equal depths in the order they came. */
  function Insert(turns: seq<Turn>, t: Turn): seq<Turn> {
    if turns == [] then [t]
    else if turns[|turns| - 1].depth <= t.depth then turns + [t]
    else Insert(turns[..|turns| - 1], t) + [turns[|turns| - 1]]
  }

  /** A stable sort by depth. */
  function SortByDepth(turns: seq<Turn>): seq<Turn> {
    if turns == [] then [] else Insert(SortByDepth(turns[..|turns| - 1]), turns[|turns| - 1])
  }

  predicate ShallowFirst(turns: seq<Turn>) { forall a, b :: 0 <= a < b < |turns| ==> turns[a].depth <= turns[b].depth }

  lemma {:induction false} InsertHolds(turns: seq<Turn>, t: Turn)
    ensures multiset(Insert(turns, t)) == multiset(turns) + multiset{t}
    decreases |turns|
  {
    if turns != [] {
      var front, last := turns[..|turns| - 1], turns[|turns| - 1];
      assert turns == front + [last];
      InsertHolds(front, t);
    }
  }

  lemma AppendShallow(turns: seq<Turn>, last: Turn)
    requires ShallowFirst(turns) && forall t :: t in turns ==> t.depth <= last.depth
    ensures ShallowFirst(turns + [last])
  {
  }

  lemma {:induction false} InsertSorts(turns: seq<Turn>, t: Turn)
    requires ShallowFirst(turns)
    ensures ShallowFirst(Insert(turns, t))
    decreases |turns|
  {
    if turns != [] {
      var front, last := turns[..|turns| - 1], turns[|turns| - 1];
      if last.depth <= t.depth {
        forall x | x in turns ensures x.depth <= t.depth {
          var k :| 0 <= k < |turns| && turns[k] == x;
        }
        AppendShallow(turns, t);
      } else {
        InsertSorts(front, t);
        InsertHolds(front, t);
        forall x | x in Insert(front, t) ensures x.depth <= last.depth {
          assert x in multiset(Insert(front, t));
          if x != t {
            var k :| 0 <= k < |front| && front[k] == x;
          }
        }
        AppendShallow(Insert(front, t), last);
      }
    }
  }

  lemma {:induction false} SortIsShallowFirst(turns: seq<Turn>)
    ensures ShallowFirst(SortByDepth(turns)) && multiset(SortByDepth(turns)) == multiset(turns)
    decreases |turns|
  {
    if turns != [] {
      var front, last := turns[..|turns| - 1], turns[|turns| - 1];
      assert turns == front + [last];
      SortIsShallowFirst(front);
      InsertSorts(SortByDepth(front), last);
      InsertHolds(SortByDepth(front), last);
    }
  }

  /** The turns of one depth, in order. */
  function AtDepth(turns: seq<Turn>, depth: nat): seq<Turn> {
    if turns == [] then []
    else
      var last := turns[|turns| - 1];
      AtDepth(turns[..|turns| - 1], depth) + if last.depth == depth then [last] else []
  }

  lemma {:induction false} InsertIsStable(turns: seq<Turn>, t: Turn, depth: nat)
    ensures AtDepth(Insert(turns, t), depth) == AtDepth(turns, depth) + if t.depth == depth then [t] else []
    decreases |turns|
  {
    if turns == [] {
      assert [t][..0] == [];
    } else if turns[|turns| - 1].depth <= t.depth {
      assert (turns + [t])[..|turns|] == turns;
    } else {
      var front, last := turns[..|turns| - 1], turns[|turns| - 1];
      InsertIsStable(front, t, depth);
      assert (Insert(front, t) + [last])[..|Insert(front, t)|] == Insert(front, t);
    }
  }

  /** Sorting keeps turns of equal depth in the order they came. */
  lemma {:induction false} SortIsStable(turns: seq<Turn>, depth: nat)
    ensures AtDepth(SortByDepth(turns), depth) == AtDepth(turns, depth)
    decreases |turns|
  {
    if turns != [] {
      SortIsStable(turns[..|turns| - 1], depth);
      InsertIsStable(SortByDepth(turns[..|turns| - 1]), turns[|turns| - 1], depth);
    }
  }

  /** What every record of a look is clamped against. */
  datatype BendFrame = BendFrame(forward: Vec3, look: Vec3)

  /** The turn one bone takes at full weight; `arc` is the least rotation from one direction to another. */
  function TurnOf(frame: BendFrame, limit: LookAtLimit, sqrt: Root, arc: (Vec3, Vec3) -> Quat): Option<Quat> {
    match ClampBendAxis(frame.forward, frame.look, limit, sqrt)
    case None => None
    case Some(clamped) =>
      match TryNormalize(clamped.0, sqrt)
      case None => None
      case Some(aim) => Some(arc(frame.forward, aim))
  }

  /** `arc` turns one direction onto another. */
  ghost predicate TurnsOnto(arc: (Vec3, Vec3) -> Quat) {
    forall a: Vec3, b: Vec3 :: Dot3(a, a) == 1.0 && Dot3(b, b) == 1.0 ==> Spin(arc(a, b), a) == b
  }

  /** A bone's turn takes the shared forward onto the clamped direction, normalised. */
  lemma TurnAims(frame: BendFrame, limit: LookAtLimit, sqrt: Root, arc: (Vec3, Vec3) -> Quat)
    requires IsSqrt(sqrt) && TurnsOnto(arc) && Dot3(frame.forward, frame.forward) == 1.0
    requires TurnOf(frame, limit, sqrt, arc).Some?
    ensures var clamped := ClampBendAxis(frame.forward, frame.look, limit, sqrt);
            var aimed := Spin(TurnOf(frame, limit, sqrt, arc).value, frame.forward);
            && clamped.Some? && Dot3(aimed, aimed) == 1.0
            && Some(aimed) == TryNormalize(clamped.value.0, sqrt)
  {
    hide Dot3, Spin, ClampBendAxis, TryNormalize;
    NormalizedIsUnit(ClampBendAxis(frame.forward, frame.look, limit, sqrt).value.0, sqrt);
  }

  /** A bone takes no turn only when the forward is on the up hint or the clamped direction is none. */
  lemma NoTurnWhen(frame: BendFrame, limit: LookAtLimit, sqrt: Root, arc: (Vec3, Vec3) -> Quat)
    requires IsSqrt(sqrt)
    ensures TurnOf(frame, limit, sqrt, arc).None?
            <==> var clamped := ClampBendAxis(frame.forward, frame.look, limit, sqrt);
                 clamped.None? || clamped.value.0 == ZERO
  {
    hide ClampBendAxis, TryNormalize;
    var clamped := ClampBendAxis(frame.forward, frame.look, limit, sqrt);
    if clamped.Some? {
      NormalizedIsUnit(clamped.value.0, sqrt);
    }
  }

  function Bends(turns: seq<Turn>): (bends: seq<Bend>)
    ensures |bends| == |turns|
  {
    seq(|turns|, k requires 0 <= k < |turns| => (turns[k].joint, turns[k].rotation))
  }

  /** The turns of the bones that have one, each at its joint's authored depth. */
  function TurnsOf(frame: BendFrame, bones: seq<LookBone>, parents: Parents, sqrt: Root, arc: (Vec3, Vec3) -> Quat)
    : seq<Turn>
    decreases |bones|
  {
    if bones == [] then []
    else
      var before := TurnsOf(frame, bones[..|bones| - 1], parents, sqrt, arc);
      var bone := bones[|bones| - 1];
      match TurnOf(frame, bone.limit, sqrt, arc)
      case None => before
      case Some(rotation) => before + [Turn(bone.joint, rotation, DepthOf(parents, bone.joint))]
  }

  /** The bends of a look: the bones' turns, shallow first. */
  function LookBendsOf(frame: BendFrame, bones: seq<LookBone>, parents: Parents, sqrt: Root,
                       arc: (Vec3, Vec3) -> Quat): seq<Bend>
  {
    Bends(SortByDepth(TurnsOf(frame, bones, parents, sqrt, arc)))
  }

  method LookBends(frame: BendFrame, bones: seq<LookBone>, parents: Parents, sqrt: Root, arc: (Vec3, Vec3) -> Quat)
    returns (bends: seq<Bend>)
    ensures bends == LookBendsOf(frame, bones, parents, sqrt, arc)
  {
    hide TurnOf, DepthOf;
    var found: seq<Turn> := [];
    for k := 0 to |bones|
      invariant found == TurnsOf(frame, bones[..k], parents, sqrt, arc)
    {
      var bone := bones[k];
      assert bones[..k + 1][..k] == bones[..k];
      var turn := TurnOf(frame, bone.limit, sqrt, arc);
      if turn.None? {
        continue;
      }
      var depth := JointDepth(parents, bone.joint);
      found := found + [Turn(bone.joint, turn.value, depth)];
    }
    assert bones[..|bones|] == bones;
    bends := Bends(SortByDepth(found));
  }

  predicate OneTurnEach(turns: seq<Turn>) { forall a, b :: 0 <= a < b < |turns| ==> turns[a].joint != turns[b].joint }

  ghost predicate DepthsHold(turns: seq<Turn>, parents: Parents) {
    forall t, k: nat :: t in turns && Ends(parents, t.joint, k) ==> t.depth == Hops(parents, t.joint, k)
  }

  /** The turns are the bones' own, and every bone that has one is there. */
  ghost predicate TurnsOfBones(turns: seq<Turn>, bones: seq<LookBone>, turnOf: LookAtLimit -> Option<Quat>) {
    && (forall t :: t in turns ==> exists b :: b in bones && b.joint == t.joint && turnOf(b.limit) == Some(t.rotation))
    && (forall b :: b in bones && turnOf(b.limit).Some? ==>
                      exists t :: t in turns && t.joint == b.joint && Some(t.rotation) == turnOf(b.limit))
  }

  lemma TurnTaken(turns: seq<Turn>, bones: seq<LookBone>, turnOf: LookAtLimit -> Option<Quat>, bone: LookBone, t: Turn)
    requires TurnsOfBones(turns, bones, turnOf) && t.joint == bone.joint && turnOf(bone.limit) == Some(t.rotation)
    ensures TurnsOfBones(turns + [t], bones + [bone], turnOf)
  {
    assert forall x :: x in turns + [t] <==> x in turns || x == t;
    assert forall b :: b in bones + [bone] <==> b in bones || b == bone;
  }

  lemma NoTurn(turns: seq<Turn>, bones: seq<LookBone>, turnOf: LookAtLimit -> Option<Quat>, bone: LookBone)
    requires TurnsOfBones(turns, bones, turnOf) && turnOf(bone.limit).None?
    ensures TurnsOfBones(turns, bones + [bone], turnOf)
  {
    assert forall b :: b in bones + [bone] <==> b in bones || b == bone;
  }

  lemma NewJoint(turns: seq<Turn>, bones: seq<LookBone>, turnOf: LookAtLimit -> Option<Quat>, joint: nat)
    requires TurnsOfBones(turns, bones, turnOf) && forall b :: b in bones ==> b.joint != joint
    ensures forall t :: t in turns ==> t.joint != joint
  {
  }

  lemma TurnAdded(turns: seq<Turn>, t: Turn, parents: Parents)
    requires OneTurnEach(turns) && DepthsHold(turns, parents) && t.depth == DepthOf(parents, t.joint)
    requires forall u :: u in turns ==> u.joint != t.joint
    ensures OneTurnEach(turns + [t]) && DepthsHold(turns + [t], parents)
  {
    hide DepthOf, Hops, Ends;
    forall u, k: nat | u in turns + [t] && Ends(parents, u.joint, k)
      ensures u.depth == Hops(parents, u.joint, k)
    {
      if u !in turns {
        assert u == t;
        DepthIsHops(parents, t.joint, k);
      }
    }
  }

  /** The bones' turns before sorting: each bone's own, once, at its hops to the root. */
  lemma {:induction false} TurnsAreBones(frame: BendFrame, bones: seq<LookBone>, parents: Parents, sqrt: Root,
                                         arc: (Vec3, Vec3) -> Quat, turnOf: LookAtLimit -> Option<Quat>)
    requires OneEach(bones) && forall limit :: turnOf(limit) == TurnOf(frame, limit, sqrt, arc)
    ensures var turns := TurnsOf(frame, bones, parents, sqrt, arc);
            OneTurnEach(turns) && DepthsHold(turns, parents) && TurnsOfBones(turns, bones, turnOf)
    decreases |bones|
  {
    hide TurnOf, DepthOf, TurnsOfBones, DepthsHold, OneTurnEach;
    if bones == [] {
      NoTurns(parents, turnOf);
    } else {
      var front, bone := bones[..|bones| - 1], bones[|bones| - 1];
      assert bones == front + [bone];
      TurnsAreBones(frame, front, parents, sqrt, arc, turnOf);
      var before := TurnsOf(frame, front, parents, sqrt, arc);
      if turnOf(bone.limit).None? {
        NoTurn(before, front, turnOf, bone);
      } else {
        var t := Turn(bone.joint, turnOf(bone.limit).value, DepthOf(parents, bone.joint));
        NewJoint(before, front, turnOf, bone.joint);
        TurnTaken(before, front, turnOf, bone, t);
        TurnAdded(before, t, parents);
      }
    }
  }

  /** Every bone that has a turn takes it, once, at its authored depth, and shallower joints first. */
  lemma LookTurns(frame: BendFrame, bones: seq<LookBone>, parents: Parents, sqrt: Root, arc: (Vec3, Vec3) -> Quat,
                  turnOf: LookAtLimit -> Option<Quat>)
    requires OneEach(bones) && forall limit :: turnOf(limit) == TurnOf(frame, limit, sqrt, arc)
    ensures var turns := SortByDepth(TurnsOf(frame, bones, parents, sqrt, arc));
            && ShallowFirst(turns) && OneTurnEach(turns) && DepthsHold(turns, parents)
            && TurnsOfBones(turns, bones, turnOf)
  {
    hide TurnsOfBones, DepthsHold, OneTurnEach, TurnsOf, SortByDepth;
    var found := TurnsOf(frame, bones, parents, sqrt, arc);
    TurnsAreBones(frame, bones, parents, sqrt, arc, turnOf);
    SortIsShallowFirst(found);
    SameMultisetOneEach(found, SortByDepth(found));
    SameTurns(found, SortByDepth(found), bones, turnOf, parents);
  }

  lemma NoTurns(parents: Parents, turnOf: LookAtLimit -> Option<Quat>)
    ensures TurnsOfBones([], [], turnOf) && OneTurnEach([]) && DepthsHold([], parents)
  {
  }

  lemma SameTurns(found: seq<Turn>, turns: seq<Turn>, bones: seq<LookBone>, turnOf: LookAtLimit -> Option<Quat>,
                  parents: Parents)
    requires multiset(found) == multiset(turns) && TurnsOfBones(found, bones, turnOf) && DepthsHold(found, parents)
    ensures TurnsOfBones(turns, bones, turnOf) && DepthsHold(turns, parents)
  {
    assert forall t :: t in turns <==> t in multiset(turns);
    assert forall t :: t in found <==> t in multiset(found);
    assert forall t :: t in turns <==> t in found;
  }

  lemma SameMultisetOneEach(found: seq<Turn>, turns: seq<Turn>)
    requires multiset(found) == multiset(turns) && OneTurnEach(found)
    ensures OneTurnEach(turns)
  {
    if a, b :| 0 <= a < b < |turns| && turns[a].joint == turns[b].joint {
      assert turns[a] in multiset(found) && turns[b] in multiset(found);
      var i :| 0 <= i < |found| && found[i] == turns[a];
      var j :| 0 <= j < |found| && found[j] == turns[b];
      Twice(turns, a, b);
      OnceOnly(found, i);
    }
  }

  lemma Twice(turns: seq<Turn>, a: nat, b: nat)
    requires a < b < |turns| && turns[a] == turns[b]
    ensures multiset(turns)[turns[a]] >= 2
  {
    assert turns == turns[..b] + turns[b..];
    assert turns[a] in turns[..b] && turns[b] in turns[b..];
  }

  lemma OnceOnly(found: seq<Turn>, i: nat)
    requires i < |found| && forall k :: 0 <= k < |found| && k != i ==> found[k] != found[i]
    ensures multiset(found)[found[i]] == 1
  {
    assert found == found[..i] + [found[i]] + found[i + 1..];
    assert found[i] !in found[..i] && found[i] !in found[i + 1..];
  }

  // ---- a whole look -----------------------------------------------------------------------------------------------

  /** The vectors a look shares, from a neck's place less `drop` in height; none without a neck or a forward. */
  function FrameOf(neck: Option<Vec3>, lookPoint: Vec3, forward: Vec3, drop: real, sqrt: Root): Option<BendFrame> {
    match (neck, TryNormalize(forward, sqrt))
    case (Some(n), Some(f)) => Some(BendFrame(f, Add(lookPoint, Negate(Vec3(n.x, n.y - drop, n.z)))))
    case _ => None
  }

  /** A look is along the unit forward, from the neck, lowered by the drop, to the point looked at. */
  lemma FrameReads(n: Vec3, lookPoint: Vec3, forward: Vec3, drop: real, sqrt: Root)
    requires IsSqrt(sqrt)
    ensures var frame := FrameOf(Some(n), lookPoint, forward, drop, sqrt);
            && (frame.Some? <==> forward != ZERO)
            && (frame.Some? ==>
                  && Dot3(frame.value.forward, frame.value.forward) == 1.0
                  && frame.value.look == Vec3(lookPoint.x - n.x, lookPoint.y - (n.y - drop), lookPoint.z - n.z))
    ensures FrameOf(None, lookPoint, forward, drop, sqrt).None?
  {
    hide Dot3, Scaled;
    NormalizedIsUnit(forward, sqrt);
  }

  /**
   A whole look: the authored bones' bends, all taken from the pose as it stands before any of them, and then applied.
   `neckOf` finds the neck's place on a pose.
   */
  method ApplyLookBends(pose: array<Mat4>, authored: Parents, overrides: Overrides, records: seq<Record>,
                        lookPoint: Vec3, forward: Vec3, weight: real, drop: real, neckOf: seq<Mat4> -> Option<Vec3>,
                        sqrt: Root, arc: (Vec3, Vec3) -> Quat, slerp: (Quat, real) -> Quat)
    modifies pose
    ensures var was, frame := old(pose[..]), FrameOf(neckOf(old(pose[..])), lookPoint, forward, drop, sqrt);
            if weight <= 0.0 || frame.None? then pose[..] == was
            else
              var bends := LookBendsOf(frame.value, Authored(records, |authored|), authored, sqrt, arc);
              pose[..] == BentAll(was, SearchParents(authored, overrides),
                                  Blended(bends, if weight < 1.0 then weight else 1.0, slerp))
  {
    hide LookBendsOf, Authored, TryNormalize, BentAll, SearchParents, Blended;
    if weight <= 0.0 {
      return;
    }
    var frame := FrameOf(neckOf(pose[..]), lookPoint, forward, drop, sqrt);
    if frame.None? {
      return;
    }
    var bones := AuthoredBones(records, |authored|);
    var bends := LookBends(frame.value, bones, authored, sqrt, arc);
    ApplyBends(pose, authored, overrides, bends, weight, slerp);
  }
}
