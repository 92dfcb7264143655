/**
 The search for the neck and the head: the chest is where the two hands' parent chains first meet, the neck is the
 chest's first child on neither chain, the head is the joint with most children under the neck.
 */
module HeadNeck {
  import opened Wrappers
  import opened Forest
  import opened Subtree

  /** Each entry's parent is the next one. */
  predicate Linked(parents: Parents, chain: seq<nat>) {
    forall m :: 0 <= m < |chain| - 1 ==> chain[m] < |parents| && parents[chain[m]] == Some(chain[m + 1])
  }

  /** The parent chain from `start`, cut before the first repeat: each ancestor once, in order. */
  ghost predicate IsChain(parents: Parents, start: nat, chain: seq<nat>) {
    && chain != [] && chain[0] == start && Distinct(chain) && Linked(parents, chain)
    && (forall x: nat :: x in chain <==> Below(parents, start, x))
  }

  lemma {:induction false} ClosedChainHolds(parents: Parents, chain: seq<nat>, y: nat, x: nat, k: nat)
    requires forall z :: z in chain && z < |parents| && parents[z].Some? ==> parents[z].value in chain
    requires y in chain && Under(parents, y, x, k)
    ensures x in chain
    decreases k
  {
    if y != x {
      ClosedChainHolds(parents, chain, parents[y].value, x, k - 1);
    }
  }

  lemma {:induction false} ChainOrder(parents: Parents, chain: seq<nat>, a: nat, b: nat)
    requires a <= b < |chain| && Linked(parents, chain)
    ensures Below(parents, chain[a], chain[b])
    decreases b
  {
    if a == b {
      BelowSelf(parents, chain[a]);
    } else {
      ChainOrder(parents, chain, a, b - 1);
      assert parents[chain[b - 1]] == Some(chain[b - 1 + 1]);
      BelowParent(parents, chain[b - 1]);
      BelowTrans(parents, chain[a], chain[b - 1], chain[b]);
    }
  }

  /** The chain up from `start` names no joint there is not; parents off the chain may. */
  ghost predicate ChainInRange(parents: Parents, start: nat) {
    forall x: nat :: Below(parents, start, x) ==> x < |parents|
  }

  method Chain(parents: Parents, start: nat) returns (out: seq<nat>)
    requires ChainInRange(parents, start)
    ensures IsChain(parents, start, out)
  {
    hide Below;
    out := [];
    var j: Option<nat> := Some(start);
    BelowSelf(parents, start);
    while j.Some?
      invariant j.Some? ==> Below(parents, start, j.value)
      invariant Distinct(out) && Linked(parents, out) && forall m :: 0 <= m < |out| ==> out[m] < |parents|
      invariant if out == [] then j == Some(start) else out[0] == start && j == parents[out[|out| - 1]]
      decreases |parents| - |out|, j.Some?
    {
      if j.value in out {
        break;
      }
      out := out + [j.value];
      DistinctBound(out, Joints(|parents|));
      if parents[j.value].Some? {
        BelowParent(parents, j.value);
        BelowTrans(parents, start, j.value, parents[j.value].value);
      }
      j := parents[j.value];
    }
    ChainHolds(parents, start, out);
  }

  /** A list that links up from `start` and is closed under parents is its chain. */
  lemma ChainHolds(parents: Parents, start: nat, out: seq<nat>)
    requires out != [] && out[0] == start && Distinct(out) && Linked(parents, out)
    requires forall m :: 0 <= m < |out| ==> out[m] < |parents|
    requires var last := out[|out| - 1]; parents[last].Some? ==> parents[last].value in out
    ensures IsChain(parents, start, out)
  {
    forall z | z in out && z < |parents| && parents[z].Some?
      ensures parents[z].value in out
    {
      var m :| 0 <= m < |out| && out[m] == z;
      if m < |out| - 1 {
        assert parents[out[m]] == Some(out[m + 1]);
      }
    }
    forall x: nat
      ensures x in out <==> Below(parents, start, x)
    {
      if Below(parents, start, x) {
        var k: nat :| Under(parents, start, x, k);
        ClosedChainHolds(parents, out, start, x, k);
      }
      if x in out {
        var m :| 0 <= m < |out| && out[m] == x;
        ChainOrder(parents, out, 0, m);
      }
    }
  }

  ghost predicate Common(parents: Parents, a: nat, b: nat, c: nat) { Below(parents, a, c) && Below(parents, b, c) }

  /** An ancestor of both, below every other one. */
  ghost predicate NearestCommon(parents: Parents, a: nat, b: nat, c: nat) {
    Common(parents, a, b, c) && forall d: nat :: Common(parents, a, b, d) ==> Below(parents, c, d)
  }

  /** A child of the chest that leads to neither hand. */
  ghost predicate NeckCandidate(parents: Parents, lh: nat, rh: nat, chest: nat, i: nat) {
    i < |parents| && parents[i] == Some(chest) && !Below(parents, lh, i) && !Below(parents, rh, i)
  }

  function ChildCount(parents: Parents, p: nat, upTo: nat): nat
    requires upTo <= |parents|
  {
    if upTo == 0 then 0
    else ChildCount(parents, p, upTo - 1) + if parents[upTo - 1] == Some(p) then 1 else 0
  }

  method CountChildren(parents: Parents) returns (childCount: seq<nat>)
    ensures |childCount| == |parents|
    ensures forall p: nat :: p < |parents| ==> childCount[p] == ChildCount(parents, p, |parents|)
  {
    childCount := seq(|parents|, _ => 0);
    for i := 0 to |parents|
      invariant |childCount| == |parents|
      invariant forall p: nat :: p < |parents| ==> childCount[p] == ChildCount(parents, p, i)
    {
      if parents[i].Some? && parents[i].value < |parents| {
        var p := parents[i].value;
        childCount := childCount[p := childCount[p] + 1];
      }
    }
  }

  /** The joint at `m` has the most children of the listed ones, and more than any listed after it. */
  predicate HasMost(parents: Parents, joints: seq<nat>, m: nat)
    requires m < |joints|
  {
    && (forall a :: 0 <= a < |joints| ==>
          ChildCount(parents, joints[a], |parents|) <= ChildCount(parents, joints[m], |parents|))
    && (forall a :: m < a < |joints| ==>
          ChildCount(parents, joints[a], |parents|) < ChildCount(parents, joints[m], |parents|))
  }

  ghost predicate LastMost(parents: Parents, joints: seq<nat>, best: nat) {
    exists m: nat :: m < |joints| && joints[m] == best && HasMost(parents, joints, m)
  }

  /** The last of the joints with most children. */
  method MostChildren(parents: Parents, childCount: seq<nat>, joints: seq<nat>) returns (best: nat)
    requires joints != [] && |childCount| == |parents| && forall a :: 0 <= a < |joints| ==> joints[a] < |parents|
    requires forall p: nat :: p < |parents| ==> childCount[p] == ChildCount(parents, p, |parents|)
    ensures LastMost(parents, joints, best)
  {
    best := joints[0];
    ghost var at: nat := 0;
    for m := 1 to |joints|
      invariant at < m && joints[at] == best
      invariant forall a :: 0 <= a < m ==> childCount[joints[a]] <= childCount[best]
      invariant forall a :: at < a < m ==> childCount[joints[a]] < childCount[best]
    {
      if childCount[joints[m]] >= childCount[best] {
        best := joints[m];
        at := m;
      }
    }
    assert HasMost(parents, joints, at);
  }

  /** Where the chains of two joints first meet, seen from the second. */
  method FirstCommon(parents: Parents, lhChain: seq<nat>, rhChain: seq<nat>, ghost lh: nat, ghost rh: nat)
    returns (chest: Option<nat>)
    requires IsChain(parents, lh, lhChain) && IsChain(parents, rh, rhChain)
    ensures chest.None? ==> forall c: nat :: !Common(parents, lh, rh, c)
    ensures chest.Some? ==> NearestCommon(parents, lh, rh, chest.value)
  {
    chest := None;
    for m := 0 to |rhChain|
      invariant forall x :: x in rhChain[..m] ==> x !in lhChain
    {
      if rhChain[m] in lhChain {
        chest := Some(rhChain[m]);
        assert rhChain[m] in rhChain;
        forall d: nat | Common(parents, lh, rh, d)
          ensures Below(parents, rhChain[m], d)
        {
          var b :| 0 <= b < |rhChain| && rhChain[b] == d;
          ChainOrder(parents, rhChain, m, b);
        }
        return;
      }
    }
    assert rhChain[..|rhChain|] == rhChain;
  }

  method FirstNeck(parents: Parents, lhChain: seq<nat>, rhChain: seq<nat>, chest: nat, ghost lh: nat, ghost rh: nat)
    returns (neck: Option<nat>)
    requires IsChain(parents, lh, lhChain) && IsChain(parents, rh, rhChain)
    ensures neck.None? ==> forall i: nat :: !NeckCandidate(parents, lh, rh, chest, i)
    ensures neck.Some? ==> NeckCandidate(parents, lh, rh, chest, neck.value)
    ensures neck.Some? ==> forall i: nat :: i < neck.value ==> !NeckCandidate(parents, lh, rh, chest, i)
  {
    neck := None;
    for i := 0 to |parents|
      invariant forall j: nat :: j < i ==> !NeckCandidate(parents, lh, rh, chest, j)
    {
      if parents[i] == Some(chest) && i !in lhChain && i !in rhChain {
        return Some(i);
      }
    }
  }

  /** The first candidate below `chest` heads too large a subtree to be a neck. */
  ghost predicate NeckTooLarge(parents: Parents, lh: nat, rh: nat, chest: nat, neck: nat) {
    && NeckCandidate(parents, lh, rh, chest, neck)
    && (forall i: nat :: i < neck ==> !NeckCandidate(parents, lh, rh, chest, i))
    && |SubtreeOf(parents, neck)| * 2 > |parents|
  }

  /** Below a candidate no joint leads to a hand, and the candidate is on no cycle. */
  lemma CandidateSubtree(parents: Parents, lh: nat, rh: nat, chest: nat, neck: nat)
    requires Common(parents, lh, rh, chest) && NeckCandidate(parents, lh, rh, chest, neck)
    ensures !OnCycle(parents, neck)
    ensures forall x :: x in SubtreeOf(parents, neck) ==> !Below(parents, lh, x) && !Below(parents, rh, x)
    ensures forall x :: x in SubtreeOf(parents, neck) ==> x < |parents|
  {
    if OnCycle(parents, neck) {
      BelowTrans(parents, rh, chest, neck);
    }
    SubtreeIsBelow(parents, neck);
    forall x | x in SubtreeOf(parents, neck)
      ensures !Below(parents, lh, x) && !Below(parents, rh, x) && x < |parents|
    {
      if Below(parents, lh, x) {
        BelowTrans(parents, lh, x, neck);
      }
      if Below(parents, rh, x) {
        BelowTrans(parents, rh, x, neck);
      }
      if x != neck {
        BelowStep(parents, x, neck);
      }
    }
  }

  /** The neck and head of a skeleton whose hands meet at `chest`. */
  ghost predicate HeadNeckAt(parents: Parents, lh: nat, rh: nat, chest: nat, neck: nat, head: nat) {
    && NearestCommon(parents, lh, rh, chest)
    && NeckCandidate(parents, lh, rh, chest, neck)
    && (forall i: nat :: i < neck ==> !NeckCandidate(parents, lh, rh, chest, i))
    && (forall x :: Below(parents, x, neck) ==> !Below(parents, lh, x) && !Below(parents, rh, x))
    && |SubtreeOf(parents, neck)| * 2 <= |parents|
    && Below(parents, head, neck)
    && LastMost(parents, SubtreeOf(parents, neck), head)
  }

  /** The hands meet at `chest`, but no joint below it will do. */
  ghost predicate NoNeckAt(parents: Parents, lh: nat, rh: nat, chest: nat) {
    && NearestCommon(parents, lh, rh, chest)
    && ((forall i: nat :: !NeckCandidate(parents, lh, rh, chest, i))
        || (exists neck: nat :: NeckTooLarge(parents, lh, rh, chest, neck)))
  }

  /** `leftHand` and `rightHand` are the joints references 126 and 127 name, when the skeleton files them. */
  method FindHeadNeck(parents: Parents, leftHand: Option<nat>, rightHand: Option<nat>)
    returns (found: Option<(nat, nat)>)
    requires leftHand.Some? && rightHand.Some? && leftHand.value < |parents| && rightHand.value < |parents| ==>
               ChainInRange(parents, leftHand.value) && ChainInRange(parents, rightHand.value)
    ensures found.Some? ==>
              && leftHand.Some? && rightHand.Some? && leftHand.value < |parents| && rightHand.value < |parents|
              && exists chest: nat :: HeadNeckAt(parents, leftHand.value, rightHand.value, chest, found.value.0,
                                                 found.value.1)
    ensures found.None? ==>
              || leftHand.None? || rightHand.None?
              || leftHand.value >= |parents| || rightHand.value >= |parents|
              || (forall c: nat :: !Common(parents, leftHand.value, rightHand.value, c))
              || (exists chest: nat :: NoNeckAt(parents, leftHand.value, rightHand.value, chest))
  {
    if leftHand.None? || rightHand.None? || leftHand.value >= |parents| || rightHand.value >= |parents| {
      return None;
    }
    var (lh, rh) := (leftHand.value, rightHand.value);
    var lhChain := Chain(parents, lh);
    var rhChain := Chain(parents, rh);
    var meet := FirstCommon(parents, lhChain, rhChain, lh, rh);
    if meet.None? {
      return None;
    }
    var chest := meet.value;
    var first := FirstNeck(parents, lhChain, rhChain, meet.value, lh, rh);
    if first.None? {
      assert NoNeckAt(parents, lh, rh, chest);
      return None;
    }
    var neck := first.value;
    CandidateSubtree(parents, lh, rh, meet.value, neck);
    SubtreeIsBelow(parents, neck);
    var subtree := NeckSubtree(parents, neck);
    if |subtree| * 2 > |parents| {
      assert NeckTooLarge(parents, lh, rh, chest, neck) && NoNeckAt(parents, lh, rh, chest);
      return None;
    }
    var childCount := CountChildren(parents);
    assert forall a :: 0 <= a < |subtree| ==> subtree[a] in subtree;
    var head := MostChildren(parents, childCount, subtree);
    assert HeadNeckAt(parents, lh, rh, chest, neck, head);
    return Some((neck, head));
  }
}
