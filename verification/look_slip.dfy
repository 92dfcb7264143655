/**
 Whether bends respect the hierarchy a pose was composed with. A bend turns what the subtree search finds, and the
 search reads a joint's first override while the poser lets the last one win.
 */
module LookSlip {
  import opened Wrappers
  import opened Forest
  import opened Subtree
  import opened Matrix
  import opened LookBend

  /** Some run of bends, on a pose of these joints, moves joint `j` in the frame of the parent it is composed under. */
  ghost predicate CanSlip(authored: Parents, overrides: Overrides, j: nat)
    requires j < |authored|
  {
    var parent := PosedParents(authored, overrides)[j];
    parent.Some?
    && exists pose: seq<Mat4>, bends: seq<Bend>, local: Mat4 ::
         Slips(authored, overrides, j, parent.value, pose, bends, local)
  }

  ghost predicate Slips(authored: Parents, overrides: Overrides, j: nat, p: nat, pose: seq<Mat4>, bends: seq<Bend>,
                        local: Mat4)
  {
    && |pose| == |authored| && j < |pose| && p < |pose| && Unbent(bends, j)
    && pose[j] == Mul(pose[p], local)
    && var bent := BentAll(pose, SearchParents(authored, overrides), bends);
       bent[j] != Mul(bent[p], local)
  }

  /** One half turn of a pose of identities tells two joints apart when only one is below the bent joint. */
  lemma HalfTurnSlips(authored: Parents, overrides: Overrides, j: nat, p: nat, bent: nat)
    requires j < |authored| && p < |authored| && bent < |authored| && j != bent
    requires var parents := SearchParents(authored, overrides); Below(parents, j, bent) != Below(parents, p, bent)
    ensures exists pose: seq<Mat4>, bends: seq<Bend>, local: Mat4 ::
              Slips(authored, overrides, j, p, pose, bends, local)
  {
    hide Times, AboutPivot, Below;
    var pose := seq(|authored|, _ => IDENTITY);
    var bends := [(bent, HALF_TURN)];
    HalfTurnTurns();
    MulIdentity(IDENTITY);
    MulIdentity(Mul(AboutPivot(ZERO, HALF_TURN), IDENTITY));
    var parents := SearchParents(authored, overrides);
    assert Origin(pose[bent]) == ZERO;
    assert bends[1..] == [];
    assert BentAll(pose, parents, bends) == Bent(pose, parents, bent, HALF_TURN);
    assert Slips(authored, overrides, j, p, pose, bends, IDENTITY);
  }

  /** Each is an ancestor of the other, or they are one. */
  ghost predicate Circling(parents: Parents, a: nat, b: nat) { Below(parents, a, b) && Below(parents, b, a) }

  /** The two overrides of a joint that count. */
  predicate Disagree(overrides: Overrides, j: nat) { FirstOverride(overrides, j) != LastOverride(overrides, j) }

  /** A joint's first and last overrides circle in the hierarchy the search reads. */
  ghost predicate OverridesCircle(authored: Parents, overrides: Overrides, j: nat) {
    && FirstOverride(overrides, j).Some? && LastOverride(overrides, j).Some?
    && Circling(SearchParents(authored, overrides), FirstOverride(overrides, j).value, LastOverride(overrides, j).value)
  }

  lemma DisagreeingParents(authored: Parents, overrides: Overrides, j: nat)
    requires j < |authored| && Disagree(overrides, j) && Rooted(PosedParents(authored, overrides), j)
    ensures var search, posed := SearchParents(authored, overrides), PosedParents(authored, overrides);
            && FirstOverride(overrides, j).Some? && LastOverride(overrides, j).Some?
            && search[j] == FirstOverride(overrides, j) && posed[j] == LastOverride(overrides, j)
            && posed[j].value < |authored| && posed[j].value != j
  {
    OverrideIsListed(overrides, j);
    var posed := PosedParents(authored, overrides);
    var k: nat :| Ends(posed, j, k);
    RootedHasNoCycle(posed, j, k);
    assert Ends(posed, posed[j].value, k - 1);
    BelowSelf(posed, j);
  }

  /** An ancestor of a joint past the last is that joint. */
  lemma OutsideIsTop(parents: Parents, x: nat, a: nat)
    requires x >= |parents| && Below(parents, x, a)
    ensures x == a
  {
  }

  lemma FirstIsOther(parents: Parents, j: nat, last: nat)
    requires j < |parents| && parents[j].Some? && Below(parents, parents[j].value, last) && last != j
    ensures parents[j].value != j
  {
    var k: nat :| Under(parents, parents[j].value, last, k);
    if parents[j].value == j {
      SelfLoopEnds(parents, j, last, k);
    }
  }

  /** A disagreeing joint whose overrides do not circle slips under a bend of one of the two. */
  lemma DisagreementSlips(authored: Parents, overrides: Overrides, j: nat)
    requires j < |authored| && Rooted(PosedParents(authored, overrides), j)
    requires Disagree(overrides, j) && !OverridesCircle(authored, overrides, j)
    ensures CanSlip(authored, overrides, j)
  {
    hide Below;
    var search := SearchParents(authored, overrides);
    DisagreeingParents(authored, overrides, j);
    var first, last := FirstOverride(overrides, j).value, LastOverride(overrides, j).value;
    BelowStep(search, j, last);
    BelowSelf(search, last);
    BelowSelf(search, first);
    if !Below(search, first, last) {
      HalfTurnSlips(authored, overrides, j, last, last);
    } else {
      if first >= |authored| {
        OutsideIsTop(search, first, last);
      }
      BelowParent(search, j);
      FirstIsOther(search, j, last);
      HalfTurnSlips(authored, overrides, j, last, first);
    }
  }

  /** A joint whose overrides agree, or circle, turns with the parent it was composed under. */
  lemma OthersTurnTogether(authored: Parents, overrides: Overrides, j: nat)
    requires j < |authored| && PosedParents(authored, overrides)[j].Some?
    requires !Disagree(overrides, j) || OverridesCircle(authored, overrides, j)
    ensures TurnTogether(SearchParents(authored, overrides), j, PosedParents(authored, overrides)[j].value)
  {
    hide Below;
    var search, p := SearchParents(authored, overrides), PosedParents(authored, overrides)[j].value;
    var first := search[j].value;
    forall c: nat | c != j
      ensures Below(search, j, c) <==> Below(search, p, c)
    {
      BelowStep(search, j, c);
      if first != p && Below(search, p, c) {
        BelowTrans(search, first, p, c);
      }
      if first != p && Below(search, first, c) {
        BelowTrans(search, p, first, c);
      }
    }
  }

  /**
   A joint whose composed chain ends can slip in its parent's frame exactly when its first and last overrides differ and
   do not circle in the hierarchy the search reads.
   */
  lemma SlipsIff(authored: Parents, overrides: Overrides, j: nat)
    requires j < |authored| && Rooted(PosedParents(authored, overrides), j)
    ensures CanSlip(authored, overrides, j) <==> Disagree(overrides, j) && !OverridesCircle(authored, overrides, j)
  {
    hide Disagree, OverridesCircle, TurnTogether, BentAll, Mul, Rooted;
    if Disagree(overrides, j) && !OverridesCircle(authored, overrides, j) {
      DisagreementSlips(authored, overrides, j);
    } else if CanSlip(authored, overrides, j) {
      var p := PosedParents(authored, overrides)[j].value;
      var pose, bends, local :| Slips(authored, overrides, j, p, pose, bends, local);
      OthersTurnTogether(authored, overrides, j);
      TogetherKept(pose, SearchParents(authored, overrides), bends, j, p, local);
    }
  }

  /** On a circle of more than one joint everything has a parent to search. */
  lemma CircleHasParents(parents: Parents, a: nat, b: nat, x: nat)
    requires a != b && Circling(parents, a, b) && Circling(parents, a, x)
    ensures x < |parents| && parents[x].Some? && Circling(parents, a, parents[x].value)
  {
    hide Below;
    var other := if x == a then b else a;
    BelowStep(parents, x, other);
    BelowParent(parents, x);
    BelowTrans(parents, a, x, parents[x].value);
    if other == b {
      BelowTrans(parents, parents[x].value, b, a);
    }
  }

  /** The composed chain of a joint on a circle leaves the circle somewhere, and where it does a joint slips. */
  lemma {:induction false} LeavingSlips(authored: Parents, overrides: Overrides, a: nat, b: nat, x: nat, k: nat)
    requires forall i: nat :: i < |authored| ==> Rooted(PosedParents(authored, overrides), i)
    requires a != b && Circling(SearchParents(authored, overrides), a, b)
    requires Circling(SearchParents(authored, overrides), a, x) && Ends(PosedParents(authored, overrides), x, k)
    ensures exists j: nat :: j < |authored| && CanSlip(authored, overrides, j)
    decreases k
  {
    hide Below, CanSlip, Rooted;
    var search, posed := SearchParents(authored, overrides), PosedParents(authored, overrides);
    CircleHasParents(search, a, b, x);
    OverrideIsListed(overrides, x);
    assert posed[x].Some?;
    var p := posed[x].value;
    if Circling(search, a, p) {
      LeavingSlips(authored, overrides, a, b, p, k - 1);
    } else {
      var s := search[x].value;
      if Circling(search, s, p) {
        BelowTrans(search, a, s, p);
        BelowTrans(search, p, s, a);
      }
      assert Rooted(posed, x);
      DisagreementSlips(authored, overrides, x);
    }
  }

  /** Over poses whose chains all end, no run of bends slips any joint exactly when the overrides agree. */
  lemma RelativesKeptIff(authored: Parents, overrides: Overrides)
    requires forall i: nat :: i < |authored| ==> Rooted(PosedParents(authored, overrides), i)
    ensures OverridesAgree(overrides, |authored|)
            <==> forall j: nat :: j < |authored| ==> !CanSlip(authored, overrides, j)
  {
    hide CanSlip, Rooted, OverridesCircle;
    if OverridesAgree(overrides, |authored|) {
      forall j: nat | j < |authored|
        ensures !CanSlip(authored, overrides, j)
      {
        SlipsIff(authored, overrides, j);
      }
    } else {
      var j: nat :| j < |authored| && FirstOverride(overrides, j) != LastOverride(overrides, j);
      SlipsIff(authored, overrides, j);
      if OverridesCircle(authored, overrides, j) {
        CircleSlipsSomewhere(authored, overrides, j);
      }
    }
  }

  lemma CircleSlipsSomewhere(authored: Parents, overrides: Overrides, j: nat)
    requires forall i: nat :: i < |authored| ==> Rooted(PosedParents(authored, overrides), i)
    requires j < |authored| && Disagree(overrides, j) && OverridesCircle(authored, overrides, j)
    ensures exists i: nat :: i < |authored| && CanSlip(authored, overrides, i)
  {
    hide Below, CanSlip;
    var search, posed := SearchParents(authored, overrides), PosedParents(authored, overrides);
    var first, last := FirstOverride(overrides, j).value, LastOverride(overrides, j).value;
    BelowSelf(search, first);
    CircleHasParents(search, first, last, first);
    assert Rooted(posed, first);
    var k: nat :| Ends(posed, first, k);
    LeavingSlips(authored, overrides, first, last, first, k);
  }

  // ---- a joint that disagrees and cannot slip --------------------------------------------------------------------

  const STAR: Parents := [None, Some(0), Some(0), Some(0)]
  const CIRCLED: Overrides := [(3, 1), (1, 2), (2, 1), (3, 2), (1, 0), (2, 0)]

  lemma StarOverrides()
    ensures SearchParents(STAR, CIRCLED) == [None, Some(2), Some(1), Some(1)]
    ensures PosedParents(STAR, CIRCLED) == [None, Some(0), Some(0), Some(2)]
    ensures FirstOverride(CIRCLED, 3) == Some(1) && LastOverride(CIRCLED, 3) == Some(2)
  {
    FirstOverrides();
    LastOverrides();
  }

  lemma FirstOverrides()
    ensures FirstOverride(CIRCLED, 0) == None && FirstOverride(CIRCLED, 1) == Some(2)
    ensures FirstOverride(CIRCLED, 2) == Some(1) && FirstOverride(CIRCLED, 3) == Some(1)
  {
    OverrideIsListed(CIRCLED, 0);
    assert CIRCLED[1..][0] == (1, 2) && CIRCLED[1..][1..][0] == (2, 1);
  }

  lemma LastOverrides()
    ensures LastOverride(CIRCLED, 0) == None && LastOverride(CIRCLED, 1) == Some(0)
    ensures LastOverride(CIRCLED, 2) == Some(0) && LastOverride(CIRCLED, 3) == Some(2)
  {
    OverrideIsListed(CIRCLED, 0);
    assert CIRCLED[..5][4] == (1, 0) && CIRCLED[..5][..4][3] == (3, 2);
  }

  /** A joint whose two overrides differ, over a pose all of whose chains end, that no bend can slip: they circle. */
  lemma CircleCannotSlip()
    ensures forall i: nat :: i < |STAR| ==> Rooted(PosedParents(STAR, CIRCLED), i)
    ensures Disagree(CIRCLED, 3) && !CanSlip(STAR, CIRCLED, 3)
  {
    hide CanSlip, FirstOverride, LastOverride, SearchParents, PosedParents;
    StarOverrides();
    var search, posed := SearchParents(STAR, CIRCLED), PosedParents(STAR, CIRCLED);
    assert Ends(posed, 0, 0) && Ends(posed, 1, 1) && Ends(posed, 2, 1) && Ends(posed, 3, 2);
    BelowParent(search, 1);
    BelowParent(search, 2);
    SlipsIff(STAR, CIRCLED, 3);
  }
}
