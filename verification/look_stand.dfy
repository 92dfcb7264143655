/**
 Whether a bent bone's turn is final once taken. Turns are sorted by authored depth and carry what is composed under
 their bone, so parent overrides can put a later turn above an earlier one.
 */
module LookStand {
  import opened Wrappers
  import opened Forest
  import opened Subtree
  import opened Matrix
  import opened LookBend
  import opened LookOrder
  import opened LookClamp

  lemma {:induction false} BentInTwo(pose: seq<Mat4>, parents: Parents, first: seq<Bend>, rest: seq<Bend>)
    ensures BentAll(pose, parents, first + rest) == BentAll(BentAll(pose, parents, first), parents, rest)
    decreases |first|
  {
    hide Bent;
    if first == [] {
      assert first + rest == rest;
    } else {
      assert (first + rest)[1..] == first[1..] + rest;
      BentInTwo(Bent(pose, parents, first[0].0, first[0].1), parents, first[1..], rest);
    }
  }

  /** No bend changes a bone an earlier one turned. */
  ghost predicate Stands(pose: seq<Mat4>, parents: Parents, bends: seq<Bend>) {
    forall m: nat :: m < |bends| && bends[m].0 < |pose| ==>
                       BentAll(pose, parents, bends)[bends[m].0] == BentAll(pose, parents, bends[..m + 1])[bends[m].0]
  }

  /** Some bend is at or above the joint of an earlier one. */
  ghost predicate LaterAbove(parents: Parents, joints: seq<nat>) {
    exists a: nat, b: nat :: a < b < |joints| && Below(parents, joints[a], joints[b])
  }

  function JointsOf(bends: seq<Bend>): (joints: seq<nat>)
    ensures |joints| == |bends|
  {
    seq(|bends|, k requires 0 <= k < |bends| => bends[k].0)
  }

  lemma StandsWithoutLaterAbove(pose: seq<Mat4>, parents: Parents, bends: seq<Bend>)
    requires !LaterAbove(parents, JointsOf(bends))
    ensures Stands(pose, parents, bends)
  {
    hide BentAll;
    forall m: nat | m < |bends| && bends[m].0 < |pose|
      ensures BentAll(pose, parents, bends)[bends[m].0] == BentAll(pose, parents, bends[..m + 1])[bends[m].0]
    {
      var rest := bends[m + 1..];
      forall b | 0 <= b < |rest|
        ensures !Below(parents, bends[m].0, rest[b].0)
      {
        assert JointsOf(bends)[m] == bends[m].0 && JointsOf(bends)[m + 1 + b] == rest[b].0;
      }
      assert bends == bends[..m + 1] + rest;
      BentInTwo(pose, parents, bends[..m + 1], rest);
      OutsideUntouched(BentAll(pose, parents, bends[..m + 1]), parents, rest, bends[m].0);
    }
  }

  /** Bends that turn nothing but for one half turn at `b`. */
  function OneHalfTurn(joints: seq<nat>, b: nat): (bends: seq<Bend>)
    requires b < |joints|
    ensures |bends| == |joints| && JointsOf(bends) == joints
  {
    seq(|joints|, k requires 0 <= k < |joints| => (joints[k], if k == b then HALF_TURN else IDENTITY_QUAT))
  }

  lemma {:induction false} NothingBends(pose: seq<Mat4>, parents: Parents, bends: seq<Bend>)
    requires forall k :: 0 <= k < |bends| ==> bends[k].1 == IDENTITY_QUAT
    ensures BentAll(pose, parents, bends) == pose
    decreases |bends|
  {
    if bends != [] {
      NothingBends(pose, parents, bends[1..]);
    }
  }

  /** Where a later bend is above, a half turn of a pose of identities moves the bone turned before it. */
  lemma LaterAboveMoves(parents: Parents, joints: seq<nat>, n: nat, a: nat, b: nat)
    requires a < b < |joints| && joints[a] < n && joints[b] < n && Below(parents, joints[a], joints[b])
    ensures !Stands(seq(n, _ => IDENTITY), parents, OneHalfTurn(joints, b))
  {
    hide AboutPivot, Mul;
    var pose, bends := seq(n, _ => IDENTITY), OneHalfTurn(joints, b);
    var front, rest := bends[..b], bends[b..];
    assert bends == front + rest && rest == [bends[b]] + rest[1..];
    NothingBends(pose, parents, bends[..a + 1]);
    NothingBends(pose, parents, front);
    BentInTwo(pose, parents, front, rest);
    var turned := Bent(pose, parents, joints[b], HALF_TURN);
    NothingBends(turned, parents, rest[1..]);
    assert Origin(pose[joints[b]]) == ZERO;
    HalfTurnTurns();
    assert BentAll(pose, parents, bends) == turned;
    assert turned[joints[a]] != IDENTITY && bends[a].0 == joints[a];
  }

  /**
   Bends of the given joints, in that order, never change a bone already turned, whatever the pose and the rotations,
   exactly when no later one's joint is above an earlier one's in the hierarchy the subtree search reads.
   */
  lemma TakenTurnsStandIff(authored: Parents, overrides: Overrides, joints: seq<nat>)
    requires forall k :: 0 <= k < |joints| ==> joints[k] < |authored|
    ensures (forall pose: seq<Mat4>, bends: seq<Bend> :: |pose| == |authored| && JointsOf(bends) == joints ==>
               Stands(pose, SearchParents(authored, overrides), bends))
            <==> !LaterAbove(SearchParents(authored, overrides), joints)
  {
    hide Stands, SearchParents;
    var parents := SearchParents(authored, overrides);
    if LaterAbove(parents, joints) {
      var a: nat, b: nat :| a < b < |joints| && Below(parents, joints[a], joints[b]);
      LaterAboveMoves(parents, joints, |authored|, a, b);
    } else {
      forall pose: seq<Mat4>, bends: seq<Bend> | |pose| == |authored| && JointsOf(bends) == joints
        ensures Stands(pose, parents, bends)
      {
        StandsWithoutLaterAbove(pose, parents, bends);
      }
    }
  }

  lemma NotAbove(parents: Parents, t: Turn, later: Turn)
    requires t.depth <= later.depth && t.joint != later.joint
    requires Rooted(parents, t.joint) && Rooted(parents, later.joint)
    requires forall k: nat :: Ends(parents, t.joint, k) ==> t.depth == Hops(parents, t.joint, k)
    requires forall k: nat :: Ends(parents, later.joint, k) ==> later.depth == Hops(parents, later.joint, k)
    ensures !Below(parents, t.joint, later.joint)
  {
    if Below(parents, t.joint, later.joint) {
      var k: nat :| Ends(parents, t.joint, k);
      var l: nat :| Ends(parents, later.joint, l);
      var m: nat :| Under(parents, t.joint, later.joint, m);
      AncestorsAreShallower(parents, t.joint, later.joint, k, l, m);
    }
  }

  lemma ShallowFirstIsEnough(parents: Parents, turns: seq<Turn>)
    requires ShallowFirst(turns) && OneTurnEach(turns) && DepthsHold(turns, parents)
    requires forall t :: t in turns ==> Rooted(parents, t.joint)
    ensures !LaterAbove(parents, JointsOf(Bends(turns)))
  {
    hide Rooted, Ends, Hops;
    if LaterAbove(parents, JointsOf(Bends(turns))) {
      var a: nat, b: nat :| a < b < |turns| && Below(parents, turns[a].joint, turns[b].joint);
      assert turns[a] in turns && turns[b] in turns;
      NotAbove(parents, turns[a], turns[b]);
    }
  }

  /** Where the search reads the parents the depths were taken from, shallow first is enough: every turn stands. */
  lemma TakenTurnsStand(pose: seq<Mat4>, parents: Parents, turns: seq<Turn>)
    requires ShallowFirst(turns) && OneTurnEach(turns) && DepthsHold(turns, parents)
    requires forall t :: t in turns ==> Rooted(parents, t.joint)
    ensures Stands(pose, parents, Bends(turns))
  {
    hide Stands, Rooted, DepthsHold, LaterAbove;
    ShallowFirstIsEnough(parents, turns);
    StandsWithoutLaterAbove(pose, parents, Bends(turns));
  }

  /** In a whole look at a pose without overrides no bend changes a bone already turned, at any weight. */
  lemma WholeLookStands(pose: seq<Mat4>, authored: Parents, records: seq<Record>, frame: BendFrame, share: real,
                        sqrt: Root, arc: (Vec3, Vec3) -> Quat, slerp: (Quat, real) -> Quat)
    requires forall i: nat :: i < |authored| ==> Rooted(authored, i)
    ensures var bends := LookBendsOf(frame, Authored(records, |authored|), authored, sqrt, arc);
            Stands(pose, SearchParents(authored, []), Blended(bends, share, slerp))
  {
    hide Stands, Rooted, DepthsHold, LaterAbove, TurnsOf, SortByDepth, TurnOf;
    var bones := Authored(records, |authored|);
    var turns := SortByDepth(TurnsOf(frame, bones, authored, sqrt, arc));
    var turnOf := limit => TurnOf(frame, limit, sqrt, arc);
    LookTurns(frame, bones, authored, sqrt, arc, turnOf);
    forall t | t in turns
      ensures Rooted(authored, t.joint)
    {
      var b :| b in bones && b.joint == t.joint;
      AuthoredHolds(records, |authored|, b.joint, b.limit);
      LimitIsLive(records, |authored|, b.joint);
    }
    ShallowFirstIsEnough(authored, turns);
    NoOverridesSearch(authored);
    assert JointsOf(Blended(Bends(turns), share, slerp)) == JointsOf(Bends(turns));
    StandsWithoutLaterAbove(pose, authored, Blended(Bends(turns), share, slerp));
  }

  lemma {:induction false} LimitIsLive(records: seq<Record>, joints: nat, joint: nat)
    requires LastLimit(records, joints, joint).Some?
    ensures joint < joints
    decreases |records|
  {
    var last := records[|records| - 1];
    if !(Live(last, joints) && last.joint == Some(joint)) {
      LimitIsLive(records[..|records| - 1], joints, joint);
    }
  }

  const REPARENTED: Parents := [None, Some(0), Some(0), Some(2)]
  const REPARENTING: Overrides := [(1, 3)]
  const REPARENTED_TURNS: seq<Turn> := [Turn(1, IDENTITY_QUAT, 1), Turn(3, HALF_TURN, 2)]

  /**
   With an override shallow first is not enough: joint 1, re-parented under the deeper joint 3, is turned first by its
   authored depth and then moved by the turn of 3.
   */
  lemma ReparentedTurnMoves()
    ensures ShallowFirst(REPARENTED_TURNS) && OneTurnEach(REPARENTED_TURNS) && DepthsHold(REPARENTED_TURNS, REPARENTED)
    ensures forall i: nat :: i < |REPARENTED| ==>
              Rooted(REPARENTED, i) && Rooted(SearchParents(REPARENTED, REPARENTING), i)
              && Rooted(PosedParents(REPARENTED, REPARENTING), i)
    ensures exists pose: seq<Mat4> :: |pose| == |REPARENTED|
                                      && !Stands(pose, SearchParents(REPARENTED, REPARENTING), Bends(REPARENTED_TURNS))
  {
    hide Stands;
    var parents := SearchParents(REPARENTED, REPARENTING);
    assert REPARENTING[..0] == [] && REPARENTING[1..] == [];
    assert parents == [None, Some(3), Some(0), Some(2)] == PosedParents(REPARENTED, REPARENTING);
    RootedHere(REPARENTED);
    RootedHere(parents);
    DepthsHere();
    assert Under(parents, 1, 3, 1);
    assert OneHalfTurn([1, 3], 1) == Bends(REPARENTED_TURNS);
    LaterAboveMoves(parents, [1, 3], 4, 0, 1);
  }

  lemma RootedHere(parents: Parents)
    requires |parents| == 4 && parents[0].None? && parents[2] == Some(0) && parents[3] == Some(2)
    requires parents[1] == Some(0) || parents[1] == Some(3)
    ensures forall i: nat :: i < 4 ==> Rooted(parents, i)
  {
    assert Ends(parents, 0, 0);
    assert Ends(parents, 2, 1);
    assert Ends(parents, 3, 2);
    assert Ends(parents, 1, 1) || Ends(parents, 1, 3);
  }

  lemma DepthsHere()
    ensures DepthsHold(REPARENTED_TURNS, REPARENTED)
  {
    assert Ends(REPARENTED, 0, 0) && Ends(REPARENTED, 1, 1) && Ends(REPARENTED, 2, 1) && Ends(REPARENTED, 3, 2);
    forall k: nat | Ends(REPARENTED, 1, k) ensures Hops(REPARENTED, 1, k) == 1 {
      HopsFuel(REPARENTED, 1, k, 1);
    }
    forall k: nat | Ends(REPARENTED, 3, k) ensures Hops(REPARENTED, 3, k) == 2 {
      HopsFuel(REPARENTED, 3, k, 2);
      assert Hops(REPARENTED, 2, 1) == 1;
    }
  }
}
