/**
 Subtrees of a skeleton: the breadth-first search that finds every joint composed under a root, and the plain search
 that head look uses.
 */
module Subtree {
  import opened Wrappers
  import opened Forest

  predicate InReach(parents: Parents, root: nat, out: seq<nat>) {
    Distinct(out) && forall x :: x in out ==> x < |parents| || x == root
  }

  lemma ReachBound(parents: Parents, root: nat, out: seq<nat>)
    requires InReach(parents, root, out)
    ensures |out| <= |parents| + 1
  {
    DistinctBound(out, Joints(|parents|) + {root});
  }

  /** The joints before `upTo` that hang from `current` and are not in `out` yet, in order. */
  function Newly(parents: Parents, current: nat, out: seq<nat>, upTo: nat): (added: seq<nat>)
    requires upTo <= |parents|
    ensures forall x: nat :: x in added <==> x < upTo && parents[x] == Some(current) && x !in out
    ensures Distinct(added)
    decreases upTo
  {
    if upTo == 0 then []
    else
      Newly(parents, current, out, upTo - 1)
      + if parents[upTo - 1] == Some(current) && upTo - 1 !in out then [upTo - 1] else []
  }

  lemma NewlyNone(parents: Parents, current: nat, found: seq<nat>)
    ensures Newly(parents, current, found, 0) == []
  {
  }

  /** One more joint looked at. */
  lemma NewlyStep(parents: Parents, current: nat, found: seq<nat>, joint: nat)
    requires joint < |parents|
    ensures var out := found + Newly(parents, current, found, joint);
            found + Newly(parents, current, found, joint + 1)
            == if parents[joint] == Some(current) && joint !in out then out + [joint] else out
  {
  }

  lemma NewlyKeepsReach(parents: Parents, root: nat, current: nat, out: seq<nat>)
    requires InReach(parents, root, out)
    ensures InReach(parents, root, out + Newly(parents, current, out, |parents|))
  {
    var added := Newly(parents, current, out, |parents|);
    forall a, b | 0 <= a < b < |out + added|
      ensures (out + added)[a] != (out + added)[b]
    {
      if a < |out| <= b {
        assert added[b - |out|] in added;
      }
    }
  }

  /** The breadth-first search from its state `(out, next)`. */
  function Search(parents: Parents, root: nat, out: seq<nat>, next: nat): seq<nat>
    requires InReach(parents, root, out) && next <= |out|
    decreases |parents| + 1 - next
  {
    ReachBound(parents, root, out);
    NewlyKeepsReach(parents, root, if next < |out| then out[next] else 0, out);
    if next == |out| then out
    else Search(parents, root, out + Newly(parents, out[next], out, |parents|), next + 1)
  }

  function SubtreeOf(parents: Parents, root: nat): seq<nat> { Search(parents, root, [root], 0) }

  ghost predicate AllBelow(parents: Parents, root: nat, out: seq<nat>) {
    forall x: nat :: x in out ==> Below(parents, x, root)
  }

  /** The children of what has been visited are found. */
  predicate Exhausted(parents: Parents, out: seq<nat>, next: nat)
    requires next <= |out|
  {
    forall j: nat :: j < |parents| && parents[j].Some? && parents[j].value in out[..next] ==> j in out
  }

  /** Whatever was found after the root hangs from something visited. */
  predicate HangsFromVisited(parents: Parents, out: seq<nat>, next: nat)
    requires next <= |out|
  {
    forall m :: 1 <= m < |out| ==>
                  out[m] < |parents| && parents[out[m]].Some? && parents[out[m]].value in out[..next]
  }

  /** What the search has done by `next`. */
  ghost predicate Searched(parents: Parents, root: nat, out: seq<nat>, next: nat)
    requires next <= |out|
  {
    && out != [] && out[0] == root
    && AllBelow(parents, root, out) && Exhausted(parents, out, next) && HangsFromVisited(parents, out, next)
  }

  lemma NewlyBelow(parents: Parents, root: nat, out: seq<nat>, current: nat)
    requires AllBelow(parents, root, out) && current in out
    ensures AllBelow(parents, root, out + Newly(parents, current, out, |parents|))
  {
    hide Newly;
    forall x: nat | x in Newly(parents, current, out, |parents|)
      ensures Below(parents, x, root)
    {
      BelowParent(parents, x);
      BelowTrans(parents, x, current, root);
    }
  }

  lemma SearchStep(parents: Parents, root: nat, out: seq<nat>, next: nat)
    requires next < |out| && Searched(parents, root, out, next)
    ensures Searched(parents, root, out + Newly(parents, out[next], out, |parents|), next + 1)
  {
    hide Newly, AllBelow;
    var added := Newly(parents, out[next], out, |parents|);
    var out' := out + added;
    NewlyBelow(parents, root, out, out[next]);
    assert out'[..next + 1] == out[..next] + [out[next]];
    forall m | 1 <= m < |out'|
      ensures out'[m] < |parents| && parents[out'[m]].Some? && parents[out'[m]].value in out'[..next + 1]
    {
      if m >= |out| {
        assert out'[m] in added;
      }
    }
  }

  lemma {:induction false} SearchEnds(parents: Parents, root: nat, out: seq<nat>, next: nat)
    requires InReach(parents, root, out) && next <= |out| && Searched(parents, root, out, next)
    ensures var found := Search(parents, root, out, next);
            InReach(parents, root, found) && Searched(parents, root, found, |found|)
    decreases |parents| + 1 - next
  {
    hide Newly, Searched, InReach;
    ReachBound(parents, root, out);
    if next < |out| {
      SearchStep(parents, root, out, next);
      NewlyKeepsReach(parents, root, out[next], out);
      SearchEnds(parents, root, out + Newly(parents, out[next], out, |parents|), next + 1);
    }
  }

  lemma {:induction false} ExhaustedHolds(parents: Parents, root: nat, found: seq<nat>, x: nat, k: nat)
    requires Searched(parents, root, found, |found|) && Under(parents, x, root, k)
    ensures x in found
    decreases k
  {
    if x == root {
      assert found[0] in found;
    } else {
      ExhaustedHolds(parents, root, found, parents[x].value, k - 1);
      assert found[..|found|] == found;
    }
  }

  /** The search finds exactly the joints whose parent chain reaches the root, each once, the root first. */
  lemma SubtreeIsBelow(parents: Parents, root: nat)
    ensures var found := SubtreeOf(parents, root);
            && Distinct(found) && found != [] && found[0] == root
            && forall x: nat :: x in found <==> Below(parents, x, root)
  {
    BelowSelf(parents, root);
    SearchEnds(parents, root, [root], 0);
    var found := SubtreeOf(parents, root);
    forall x: nat | Below(parents, x, root)
      ensures x in found
    {
      var k: nat :| Under(parents, x, root, k);
      ExhaustedHolds(parents, root, found, x, k);
    }
  }

  /** One visit of the composed search. */
  method PushUnseen(authored: Parents, overrides: Overrides, current: nat, found: seq<nat>) returns (out: seq<nat>)
    ensures out == found + Newly(SearchParents(authored, overrides), current, found, |authored|)
  {
    hide Newly, FirstOverride;
    out := found;
    assert Newly(SearchParents(authored, overrides), current, found, 0) == [] by {
      NewlyNone(SearchParents(authored, overrides), current, found);
    }
    for joint := 0 to |authored|
      invariant out == found + Newly(SearchParents(authored, overrides), current, found, joint)
    {
      NewlyStep(SearchParents(authored, overrides), current, found, joint);
      var parent := Or(FirstOverride(overrides, joint), authored[joint]);
      if parent == Some(current) && joint !in out {
        out := out + [joint];
      }
    }
  }

  /** Terminates on cyclic parents too, since nothing is found twice. */
  method ComposedSubtree(authored: Parents, overrides: Overrides, root: nat) returns (out: seq<nat>)
    ensures out == SubtreeOf(SearchParents(authored, overrides), root)
    ensures Distinct(out) && out != [] && out[0] == root
    ensures forall x: nat :: x in out <==> Below(SearchParents(authored, overrides), x, root)
  {
    ghost var parents := SearchParents(authored, overrides);
    out := [root];
    var next := 0;
    SearchStarts(parents, root);
    hide Newly, Searched, InReach, Search, SubtreeOf, Below, SearchParents;
    while next < |out|
      invariant InReach(parents, root, out) && next <= |out|
      invariant Search(parents, root, out, next) == SubtreeOf(parents, root)
      decreases |parents| + 1 - next
    {
      ReachBound(parents, root, out);
      SearchGoesOn(parents, root, out, next);
      out := PushUnseen(authored, overrides, out[next], out);
      next := next + 1;
    }
    SearchIsOver(parents, root, out);
    SubtreeIsBelow(parents, root);
  }

  /** A search that has not looked at the children of `out[next]` yet has found none of them, unless by a cycle. */
  lemma NothingFoundHangsHere(parents: Parents, root: nat, out: seq<nat>, next: nat, m: nat)
    requires Distinct(out) && m < |out| && next < |out| && Searched(parents, root, out, next)
    requires !OnCycle(parents, root)
    ensures !(out[m] < |parents| && parents[out[m]] == Some(out[next]))
  {
    if m > 0 {
      assert parents[out[m]].value in out[..next];
    }
  }

  lemma NothingFound(parents: Parents, root: nat, out: seq<nat>, next: nat)
    requires Distinct(out) && next < |out| && Searched(parents, root, out, next) && !OnCycle(parents, root)
    ensures forall x :: x in out ==> !(x < |parents| && parents[x] == Some(out[next]))
  {
    hide Searched, OnCycle, Distinct;
    forall x | x in out
      ensures !(x < |parents| && parents[x] == Some(out[next]))
    {
      var m :| 0 <= m < |out| && out[m] == x;
      NothingFoundHangsHere(parents, root, out, next, m);
    }
  }

  /** One visit of the plain search. */
  method PushChildren(authored: Parents, cur: nat, found: seq<nat>) returns (out: seq<nat>)
    requires forall x :: x in found ==> !(x < |authored| && authored[x] == Some(cur))
    ensures out == found + Newly(authored, cur, found, |authored|)
  {
    hide Newly;
    out := found;
    assert Newly(authored, cur, found, 0) == [] by { NewlyNone(authored, cur, found); }
    for c := 0 to |authored|
      invariant out == found + Newly(authored, cur, found, c)
    {
      NewlyStep(authored, cur, found, c);
      if authored[c] == Some(cur) {
        out := out + [c];
      }
    }
  }

  lemma SearchStarts(parents: Parents, root: nat)
    ensures InReach(parents, root, [root]) && Searched(parents, root, [root], 0)
    ensures Search(parents, root, [root], 0) == SubtreeOf(parents, root)
  {
    BelowSelf(parents, root);
  }

  lemma SearchGoesOn(parents: Parents, root: nat, out: seq<nat>, next: nat)
    requires InReach(parents, root, out) && next < |out|
    ensures var more := out + Newly(parents, out[next], out, |parents|);
            InReach(parents, root, more) && Search(parents, root, more, next + 1) == Search(parents, root, out, next)
  {
    hide Newly;
    ReachBound(parents, root, out);
    NewlyKeepsReach(parents, root, out[next], out);
  }

  lemma SearchIsOver(parents: Parents, root: nat, out: seq<nat>)
    requires InReach(parents, root, out)
    ensures Search(parents, root, out, |out|) == out
  {
    ReachBound(parents, root, out);
  }

  lemma ReachIsDistinct(parents: Parents, root: nat, out: seq<nat>)
    requires InReach(parents, root, out)
    ensures Distinct(out)
  {
  }

  /** The plain search never looks whether it has found a joint already, and off a cycle it need not. */
  method NeckSubtree(authored: Parents, neck: nat) returns (out: seq<nat>)
    requires !OnCycle(authored, neck)
    ensures out == SubtreeOf(authored, neck)
  {
    out := [neck];
    var i := 0;
    BelowSelf(authored, neck);
    SearchStarts(authored, neck);
    hide Newly, Searched, InReach, OnCycle, Search, SubtreeOf, Below;
    while i < |out|
      invariant InReach(authored, neck, out) && i <= |out| && Searched(authored, neck, out, i)
      invariant Search(authored, neck, out, i) == SubtreeOf(authored, neck)
      decreases |authored| + 1 - i
    {
      var cur := out[i];
      ReachBound(authored, neck, out);
      NewlyKeepsReach(authored, neck, cur, out);
      SearchStep(authored, neck, out, i);
      ReachIsDistinct(authored, neck, out);
      NothingFound(authored, neck, out, i);
      SearchGoesOn(authored, neck, out, i);
      out := PushChildren(authored, cur, out);
      i := i + 1;
    }
    SearchIsOver(authored, neck, out);
  }

  /** With no overrides the two searches walk one forest. */
  lemma NoOverridesSearch(authored: Parents)
    ensures SearchParents(authored, []) == authored
  {
  }
}
