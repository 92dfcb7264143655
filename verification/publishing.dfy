/**
 What publishing comes to over whole runs: protected issues and foreign labels survive every run, a run settles what it
 publishes, and a second run is silent exactly when every id it publishes is clean.
 */
module Publishing {
  import opened Wrappers
  import opened Marker
  import opened Publisher

  // ---- every run --------------------------------------------------------------------------------------------------

  /** The issues there were are still there, in place: protected ones as they were, the others with their own labels. */
  predicate Keeps(before: Hub, after: Hub, o: Options) {
    && |before| <= |after|
    && forall k :: 0 <= k < |before| ==>
         var i, i' := before[k], after[|after| - |before| + k];
         && i'.number == i.number && Unmanaged(i'.labels) == Unmanaged(i.labels)
         && (i.number in o.protected ==> i' == i)
  }

  lemma KeepsSelf(hub: Hub, o: Options)
    ensures Keeps(hub, hub, o)
  {
  }

  lemma KeepsTrans(a: Hub, b: Hub, c: Hub, o: Options)
    requires Keeps(a, b, o) && Keeps(b, c, o)
    ensures Keeps(a, c, o)
  {
    hide Unmanaged;
    forall k | 0 <= k < |a|
      ensures var i, i' := a[k], c[|c| - |a| + k];
              && i'.number == i.number && Unmanaged(i'.labels) == Unmanaged(i.labels)
              && (i.number in o.protected ==> i' == i)
    {
      var m := |b| - |a| + k;
      assert c[|c| - |b| + m] == c[|c| - |a| + k];
    }
  }

  lemma KeepsCreate(issue: Issue, hub: Hub, o: Options)
    requires DistinctNumbers(hub) && issue.number == FreshNumber(hub)
    ensures Keeps(hub, [issue] + hub, o) && DistinctNumbers([issue] + hub)
  {
    hide Unmanaged, FreshNumber;
  }

  lemma KeepsChange(hub: Hub, found: Issue, b: Bead, o: Options)
    requires DistinctNumbers(hub) && found.number !in o.protected
    ensures Keeps(hub, Reconciled(hub, found, b), o) && DistinctNumbers(Reconciled(hub, found, b))
  {
    hide ProjectBody, WantedLabels, Managed, Unmanaged, Strip;
    forall k | 0 <= k < |hub|
      ensures Unmanaged(Changed(hub[k], found, b).labels) == Unmanaged(hub[k].labels)
    {
      ChangedLabels(hub[k].labels, found.labels, b);
    }
  }

  lemma KeepsOne(p: Progress, found: Option<Issue>, b: Bead, o: Options)
    requires DistinctNumbers(p.hub)
    ensures Keeps(p.hub, PublishOne(p, found, b, o).hub, o) && DistinctNumbers(PublishOne(p, found, b, o).hub)
    ensures |PublishOne(p, found, b, o).hub| <= |p.hub| + 1
  {
    hide Keeps, DistinctNumbers, Reconciled, ProjectBody, WantedLabels, MarkerId, Counted, FreshNumber;
    KeepsSelf(p.hub, o);
    KeepsCreate(Created(p.hub, b), p.hub, o);
    KeepsCreate(Created(p.hub, b).(open := false), p.hub, o);
    if found.Some? && found.value.number !in o.protected {
      KeepsChange(p.hub, found.value, b, o);
    }
  }

  /** Every run, aborted ones too, leaves protected issues as they were and every unmanaged label where it was. */
  lemma {:induction false} EveryRunKeeps(beads: seq<Bead>, listed: Hub, start: Progress, o: Options)
    requires DistinctNumbers(start.hub)
    ensures var p := PublishAll(beads, listed, start, o);
            Keeps(start.hub, p.hub, o) && DistinctNumbers(p.hub) && |p.hub| <= |start.hub| + |beads|
    decreases |beads|
  {
    hide Keeps, DistinctNumbers, PublishOne, FindIssue;
    KeepsSelf(start.hub, o);
    if beads != [] {
      var front := beads[..|beads| - 1];
      EveryRunKeeps(front, listed, start, o);
      var before := PublishAll(front, listed, start, o);
      if !before.aborted {
        var b := beads[|beads| - 1];
        KeepsOne(before, FindIssue(listed, b.id), b, o);
        KeepsTrans(start.hub, before.hub, PublishAll(beads, listed, start, o).hub, o);
      }
    }
  }

  // ---- looking an issue up after a change -------------------------------------------------------------------------

  lemma {:induction false} FindAfterCreate(issue: Issue, hub: Hub, id: string)
    ensures FindIssue([issue] + hub, id)
            == if FindIssue(hub, id).Some? then FindIssue(hub, id)
               else if MarkerId(issue.body) == Some(id) then Some(issue) else None
    decreases |hub|
  {
    hide MarkerId;
    if hub == [] {
      assert [issue] + hub == [issue];
      assert FindIssue([issue][..0], id) == None;
    } else {
      assert ([issue] + hub)[..|hub|] == [issue] + hub[..|hub| - 1];
      FindAfterCreate(issue, hub[..|hub| - 1], id);
    }
  }

  /** Every issue of that number carries the marker of one id, and so it does after the change. */
  predicate Owns(hub: Hub, after: Hub, number: nat, id: string) {
    && |after| == |hub|
    && forall k :: 0 <= k < |hub| ==>
         && (hub[k].number != number ==> after[k] == hub[k])
         && (hub[k].number == number ==> MarkerId(hub[k].body) == Some(id) && MarkerId(after[k].body) == Some(id))
  }

  lemma {:induction false} FindAfterChange(hub: Hub, after: Hub, number: nat, id: string, other: string)
    requires Owns(hub, after, number, id)
    ensures other != id ==> FindIssue(after, other) == FindIssue(hub, other)
    ensures FindIssue(hub, id).None? ==> FindIssue(after, id).None?
    ensures FindIssue(hub, id).Some? ==>
              exists k :: 0 <= k < |hub| && FindIssue(hub, id) == Some(hub[k]) && FindIssue(after, id) == Some(after[k])
    decreases |hub|
  {
    hide MarkerId;
    if hub != [] {
      var n := |hub| - 1;
      FindAfterChange(hub[..n], after[..n], number, id, other);
      if MarkerId(hub[n].body) == Some(id) {
        assert FindIssue(hub, id) == Some(hub[n]) && FindIssue(after, id) == Some(after[n]);
      } else if FindIssue(hub, id).Some? {
        var k :| 0 <= k < n && FindIssue(hub[..n], id) == Some(hub[..n][k])
                 && FindIssue(after[..n], id) == Some(after[..n][k]);
        assert FindIssue(hub, id) == Some(hub[k]) && FindIssue(after, id) == Some(after[k]);
      }
    }
  }

  // ---- what one bead's turn leaves --------------------------------------------------------------------------------

  /** Nothing would be done for the bead if it were published again now. */
  predicate Quiet(hub: Hub, b: Bead, o: Options) {
    match FindIssue(hub, b.id)
    case None => !Publishable(b, o)
    case Some(i) => i.number in o.protected || Settled(i, b)
  }

  predicate CleanIfPublished(b: Bead, o: Options) { Publishable(b, o) ==> Clean(b.id) }

  lemma CreatedSettles(hub: Hub, b: Bead)
    ensures Settled(Created(hub, b).(open := !b.Closed()), b)
  {
    hide ProjectBody, FreshNumber;
    WantedAreManaged(b);
  }

  /** The issues created since a run began over `base` issues, and the first `kept` of those. */
  function Window(hub: Hub, base: nat, kept: nat): Hub
    requires kept <= base <= |hub|
  {
    hub[..|hub| - base + kept]
  }

  /** What a window holds for a bead once its turn is over, from what it held before and the issue it was found at. */
  predicate TurnedTo(was: Option<Issue>, found: Option<Issue>, now: Option<Issue>, b: Bead, o: Options) {
    if found.None? then
      if Publishable(b, o) then now.Some? && Settled(now.value, b) else now == was
    else if found.value.number in o.protected || was != found then now == was
    else now.Some? && Settled(now.value, b)
  }

  /** A turn settles its own bead's issue in any window that holds it, and looks no other id up differently. */
  lemma TurnInWindow(p: Progress, found: Option<Issue>, b: Bead, o: Options, base: nat, kept: nat, other: string)
    requires !p.aborted && DistinctNumbers(p.hub) && CleanIfPublished(b, o) && kept <= base <= |p.hub|
    requires found.Some? ==> found.value in p.hub && MarkerId(found.value.body) == Some(b.id)
    requires found.None? ==> FindIssue(Window(p.hub, base, kept), b.id).None?
    ensures var p' := PublishOne(p, found, b, o);
            && !p'.aborted && |p'.hub| == |p.hub| + (if found.None? && Publishable(b, o) then 1 else 0)
            && TurnedTo(FindIssue(Window(p.hub, base, kept), b.id), found, FindIssue(Window(p'.hub, base, kept), b.id),
                        b, o)
            && (other != b.id ==>
                  FindIssue(Window(p'.hub, base, kept), other) == FindIssue(Window(p.hub, base, kept), other))
  {
    hide ProjectBody, MarkerId, Clean, FindIssue, WantedLabels, Managed, Settled, Strip, FreshNumber;
    ProjectedIdReadsBack(b);
    if found.None? {
      if Publishable(b, o) {
        var issue := Created(p.hub, b).(open := !b.Closed());
        assert PublishOne(p, found, b, o).hub == [issue] + p.hub;
        assert Window([issue] + p.hub, base, kept) == [issue] + Window(p.hub, base, kept);
        CreatedSettles(p.hub, b);
        FindAfterCreate(issue, Window(p.hub, base, kept), b.id);
        FindAfterCreate(issue, Window(p.hub, base, kept), other);
      }
    } else if found.value.number !in o.protected {
      MatchedInWindow(p.hub, found.value, b, base, kept, other);
    }
  }

  lemma SameNumber(hub: Hub, found: Issue)
    requires DistinctNumbers(hub) && found in hub
    ensures forall i :: i in hub && i.number == found.number ==> i == found
  {
    forall i | i in hub && i.number == found.number
      ensures i == found
    {
      var j: nat :| j < |hub| && hub[j] == i;
      var k: nat :| k < |hub| && hub[k] == found;
    }
  }

  lemma MatchedInWindow(hub: Hub, found: Issue, b: Bead, base: nat, kept: nat, other: string)
    requires DistinctNumbers(hub) && found in hub && MarkerId(found.body) == Some(b.id) && kept <= base <= |hub|
    ensures var was := FindIssue(Window(hub, base, kept), b.id);
            var after := Reconciled(hub, found, b);
            var now := FindIssue(Window(after, base, kept), b.id);
            && (was == Some(found) ==> now.Some? && Settled(now.value, b))
            && (was != Some(found) ==> now == was)
            && (other != b.id ==>
                  FindIssue(Window(after, base, kept), other) == FindIssue(Window(hub, base, kept), other))
  {
    hide ProjectBody, MarkerId, Clean, FindIssue, WantedLabels, Managed, Settled, Strip;
    var after := Reconciled(hub, found, b);
    var here, there := Window(hub, base, kept), Window(after, base, kept);
    ReadsBackClean(found.body);
    ProjectedIdReadsBack(b);
    SameNumber(hub, found);
    assert Owns(here, there, found.number, b.id) by {
      forall k | 0 <= k < |here|
        ensures here[k].number == found.number ==> here[k] == found
      {
        assert here[k] in hub;
      }
    }
    FindAfterChange(here, there, found.number, b.id, other);
    ChangedSettles(found, b);
    if FindIssue(here, b.id).Some? {
      var k :| 0 <= k < |here| && FindIssue(here, b.id) == Some(here[k]) && FindIssue(there, b.id) == Some(there[k]);
      assert here[k] in hub;
    }
  }

  // ---- two runs ---------------------------------------------------------------------------------------------------

  predicate DistinctIds(beads: seq<Bead>) { forall i, j :: 0 <= i < j < |beads| ==> beads[i].id != beads[j].id }

  predicate AllClean(beads: seq<Bead>, o: Options) { forall k :: 0 <= k < |beads| ==> CleanIfPublished(beads[k], o) }

  predicate AllQuiet(hub: Hub, beads: seq<Bead>, o: Options) {
    forall k :: 0 <= k < |beads| ==> Quiet(hub, beads[k], o)
  }

  /** The ids a run creates issues for. */
  function NewIds(beads: seq<Bead>, listed: Hub, o: Options): seq<string>
    decreases |beads|
  {
    if beads == [] then []
    else
      var before, b := NewIds(beads[..|beads| - 1], listed, o), beads[|beads| - 1];
      if FindIssue(listed, b.id).None? && Publishable(b, o) then before + [b.id] else before
  }

  /**
   Whether a bead that was found when the first `LIST_LIMIT` issues were listed will be quiet when only the first `kept`
   are: found again, or at an issue that needs nothing or is guarded, or not to be published anyway.
   */
  predicate StaysFound(b: Bead, hub: Hub, kept: nat, o: Options)
    requires kept <= |hub|
  {
    FindIssue(Listed(hub), b.id).Some? ==>
      match FindIssue(hub[..kept], b.id)
      case None => !Publishable(b, o)
      case Some(i) => Some(i) == FindIssue(Listed(hub), b.id) || i.number in o.protected || Settled(i, b)
  }

  lemma {:induction false} NoneInPrefix(listed: Hub, id: string, kept: nat)
    requires kept <= |listed| && FindIssue(listed, id).None?
    ensures FindIssue(listed[..kept], id).None?
    decreases |listed|
  {
    hide MarkerId;
    if kept == |listed| {
      assert listed[..kept] == listed;
    } else {
      assert listed[..|listed| - 1][..kept] == listed[..kept];
      NoneInPrefix(listed[..|listed| - 1], id, kept);
    }
  }

  /** A run went through and left a window where a bead is quiet exactly if it stays found, and no other id moved. */
  predicate LeavesWindow(p: Progress, beads: seq<Bead>, hub: Hub, o: Options, kept: nat, other: string)
    requires kept <= |hub|
  {
    && !p.aborted && |p.hub| == |hub| + |NewIds(beads, Listed(hub), o)|
    && (forall k :: 0 <= k < |beads| ==>
          (Quiet(Window(p.hub, |hub|, kept), beads[k], o) <==> StaysFound(beads[k], hub, kept, o)))
    && ((forall k :: 0 <= k < |beads| ==> beads[k].id != other) ==>
          FindIssue(Window(p.hub, |hub|, kept), other) == FindIssue(hub[..kept], other))
  }

  /** What a whole run with clean ids leaves in a window. */
  lemma {:induction false} RunInWindow(beads: seq<Bead>, hub: Hub, start: Progress, o: Options,
                                       kept: nat, other: string)
    requires start.hub == hub && !start.aborted && DistinctNumbers(hub) && DistinctIds(beads) && AllClean(beads, o)
    requires kept <= |Listed(hub)|
    ensures LeavesWindow(PublishAll(beads, Listed(hub), start, o), beads, hub, o, kept, other)
    decreases |beads|
  {
    hide PublishOne, FindIssue, DistinctNumbers, CleanIfPublished, Quiet, StaysFound, TurnedTo, Listed;
    if beads != [] {
      var n, listed := |beads| - 1, Listed(hub);
      var front, b := beads[..n], beads[n];
      RunInWindow(front, hub, start, o, kept, b.id);
      RunInWindow(front, hub, start, o, kept, other);
      RunInWindow(front, hub, start, o, |listed|, b.id);
      EveryRunKeeps(front, listed, start, o);
      var before, found := PublishAll(front, listed, start, o), FindIssue(listed, b.id);
      FoundInRun(before.hub, hub, b.id);
      PrefixOfListed(hub, kept, b.id);
      TurnInWindow(before, found, b, o, |hub|, kept, other);
      var after := PublishAll(beads, listed, start, o);
      TurnQuiet(hub, Window(after.hub, |hub|, kept), b, o, kept);
      forall k | 0 <= k < n
        ensures Quiet(Window(after.hub, |hub|, kept), beads[k], o) <==> StaysFound(beads[k], hub, kept, o)
      {
        assert front[k] == beads[k];
        TurnInWindow(before, found, b, o, |hub|, kept, beads[k].id);
        QuietCarries(Window(before.hub, |hub|, kept), Window(after.hub, |hub|, kept), beads[k], o);
      }
    }
  }

  lemma FoundInRun(now: Hub, hub: Hub, id: string)
    requires |hub| <= |now|
    requires FindIssue(Window(now, |hub|, |Listed(hub)|), id) == FindIssue(hub[..|Listed(hub)|], id)
    ensures FindIssue(Listed(hub), id).Some? ==>
              FindIssue(Listed(hub), id).value in now && MarkerId(FindIssue(Listed(hub), id).value.body) == Some(id)
  {
    hide FindIssue, MarkerId;
    assert hub[..|Listed(hub)|] == Listed(hub);
    if FindIssue(Listed(hub), id).Some? {
      var k := FoundIsListed(Window(now, |hub|, |Listed(hub)|), id);
    }
  }

  lemma PrefixOfListed(hub: Hub, kept: nat, id: string)
    requires kept <= |Listed(hub)|
    ensures kept <= |hub| && (FindIssue(Listed(hub), id).None? ==> FindIssue(hub[..kept], id).None?)
  {
    hide FindIssue;
    assert Listed(hub)[..kept] == hub[..kept];
    if FindIssue(Listed(hub), id).None? {
      NoneInPrefix(Listed(hub), id, kept);
    }
  }

  lemma TurnQuiet(hub: Hub, window: Hub, b: Bead, o: Options, kept: nat)
    requires kept <= |Listed(hub)| && kept <= |hub|
    requires FindIssue(Listed(hub), b.id).None? ==> FindIssue(hub[..kept], b.id).None?
    requires TurnedTo(FindIssue(hub[..kept], b.id), FindIssue(Listed(hub), b.id), FindIssue(window, b.id), b, o)
    ensures Quiet(window, b, o) <==> StaysFound(b, hub, kept, o)
  {
    hide FindIssue, Settled, Listed;
  }

  lemma QuietCarries(hub: Hub, after: Hub, b: Bead, o: Options)
    requires FindIssue(after, b.id) == FindIssue(hub, b.id)
    ensures Quiet(after, b, o) <==> Quiet(hub, b, o)
  {
  }

  /** A run whose published ids are clean ends with every bead it could see settled, or guarded, or rightly left out. */
  lemma RunSettles(beads: seq<Bead>, hub: Hub, o: Options)
    requires DistinctNumbers(hub) && DistinctIds(beads) && AllClean(beads, o)
    ensures var p := Publish(beads, hub, o);
            && !p.aborted && |hub| <= |p.hub| && AllQuiet(Window(p.hub, |hub|, |Listed(hub)|), beads, o)
  {
    hide PublishAll, FindIssue, Settled, Quiet, DistinctNumbers, DistinctIds, AllClean;
    RunInWindow(beads, hub, Progress(hub, NOTHING, false), o, |Listed(hub)|, "");
    assert hub[..|Listed(hub)|] == Listed(hub);
  }

  /** No create, edit, close or reopen, and nothing changed. */
  predicate Silent(before: Hub, p: Progress) {
    && !p.aborted && p.hub == before
    && p.tally.created == 0 && p.tally.updated == 0 && p.tally.closed == 0 && p.tally.reopened == 0
  }

  lemma {:induction false} AbortMeansCreated(beads: seq<Bead>, listed: Hub, start: Progress, o: Options)
    requires !start.aborted
    ensures PublishAll(beads, listed, start, o).aborted ==> PublishAll(beads, listed, start, o).tally.created > 0
    decreases |beads|
  {
    hide FindIssue, ProjectBody, MarkerId, WantedLabels, Reconciled, NeedsEdit, FreshNumber;
    if beads != [] {
      AbortMeansCreated(beads[..|beads| - 1], listed, start, o);
    }
  }

  function Calls(t: Tally): nat { t.created + t.updated + t.closed + t.reopened }

  /** A turn makes no call exactly for a quiet bead, and then changes nothing. */
  lemma QuietTurn(p: Progress, listed: Hub, b: Bead, o: Options)
    requires DistinctNumbers(p.hub) && forall i :: i in listed ==> i in p.hub
    ensures var p' := PublishOne(p, FindIssue(listed, b.id), b, o);
            && Calls(p'.tally) >= Calls(p.tally)
            && (Calls(p'.tally) == Calls(p.tally) <==> Quiet(listed, b, o))
            && (Quiet(listed, b, o) ==> p'.hub == p.hub && p'.aborted == p.aborted)
  {
    hide FindIssue, ProjectBody, Strip, WantedLabels, IsManaged, MarkerId, FreshNumber;
    var found := FindIssue(listed, b.id);
    if found.Some? && found.value.number !in o.protected && Settled(found.value, b) {
      var at := FoundIsListed(listed, b.id);
      SameNumber(p.hub, found.value);
      forall k | 0 <= k < |p.hub|
        ensures p.hub[k].number == found.value.number ==> Changed(p.hub[k], found.value, b) == p.hub[k]
      {
        assert p.hub[k] in p.hub && p.hub[k].labels + {} - {} == p.hub[k].labels;
      }
      assert Reconciled(p.hub, found.value, b) == p.hub;
    }
  }

  /** A run is silent exactly when every bead is quiet in what it lists. */
  lemma {:induction false} SilentIffQuiet(beads: seq<Bead>, listed: Hub, start: Progress, o: Options)
    requires DistinctNumbers(start.hub) && !start.aborted && start.tally == NOTHING
    requires forall i :: i in listed ==> i in start.hub
    ensures var p := PublishAll(beads, listed, start, o);
            && (Silent(start.hub, p) <==> AllQuiet(listed, beads, o))
            && (Calls(p.tally) == 0 ==> AllQuiet(listed, beads, o))
    decreases |beads|
  {
    hide FindIssue, PublishOne, Quiet, DistinctNumbers;
    if beads != [] {
      var n := |beads| - 1;
      var front, b := beads[..n], beads[n];
      var before, after := PublishAll(front, listed, start, o), PublishAll(beads, listed, start, o);
      SilentIffQuiet(front, listed, start, o);
      if before.aborted {
        AbortMeansCreated(front, listed, start, o);
      } else if Silent(start.hub, before) {
        QuietTurn(before, listed, b, o);
      } else {
        BusyStays(before, FindIssue(listed, b.id), b, o);
      }
      assert AllQuiet(listed, beads, o) <==> AllQuiet(listed, front, o) && Quiet(listed, b, o);
    }
  }

  lemma BusyStays(p: Progress, found: Option<Issue>, b: Bead, o: Options)
    ensures Calls(PublishOne(p, found, b, o).tally) >= Calls(p.tally)
  {
    hide ProjectBody, Strip, WantedLabels, IsManaged, MarkerId, FreshNumber;
  }

  /** An unclean id finds no issue in any list: a run that comes to it creates one, and one that does not aborted. */
  lemma {:induction false} UncleanCreates(beads: seq<Bead>, k: nat, listed: Hub, start: Progress, o: Options)
    requires k < |beads| && !CleanIfPublished(beads[k], o) && !start.aborted
    ensures PublishAll(beads, listed, start, o).tally.created > 0
    decreases |beads|
  {
    hide FindIssue, ProjectBody, MarkerId, Clean, WantedLabels, Reconciled, NeedsEdit, FreshNumber;
    var n := |beads| - 1;
    var before := PublishAll(beads[..n], listed, start, o);
    AbortMeansCreated(beads[..n], listed, start, o);
    if k < n {
      UncleanCreates(beads[..n], k, listed, start, o);
    } else if FindIssue(listed, beads[k].id).Some? {
      FoundIsClean(listed, beads[k].id);
    }
  }

  predicate NoRepeats(ids: seq<string>) { forall i, j :: 0 <= i < j < |ids| ==> ids[i] != ids[j] }

  /** No more ids can be found than there are issues. */
  lemma {:induction false} IdsBound(listed: Hub, ids: seq<string>)
    requires NoRepeats(ids) && forall i :: 0 <= i < |ids| ==> FindIssue(listed, ids[i]).Some?
    ensures |ids| <= |listed|
    decreases |listed|
  {
    hide MarkerId;
    if listed == [] {
      assert |ids| > 0 ==> FindIssue(listed, ids[0]).None?;
    } else {
      var front, last := listed[..|listed| - 1], MarkerId(listed[|listed| - 1].body);
      if i: nat :| i < |ids| && last == Some(ids[i]) {
        var rest := ids[..i] + ids[i + 1..];
        forall j | 0 <= j < |rest|
          ensures FindIssue(front, rest[j]).Some?
        {
          assert rest[j] == ids[if j < i then j else j + 1];
        }
        IdsBound(front, rest);
      } else {
        IdsBound(front, ids);
      }
    }
  }

  predicate IsPublished(beads: seq<Bead>, id: string, o: Options) {
    exists k :: 0 <= k < |beads| && beads[k].id == id && Publishable(beads[k], o)
  }

  lemma {:induction false} NewIdsAreBeads(beads: seq<Bead>, listed: Hub, o: Options)
    requires DistinctIds(beads)
    ensures var ids := NewIds(beads, listed, o); NoRepeats(ids) && forall id :: id in ids ==> IsPublished(beads, id, o)
    decreases |beads|
  {
    hide FindIssue;
    if beads != [] {
      var n := |beads| - 1;
      var before := NewIds(beads[..n], listed, o);
      NewIdsAreBeads(beads[..n], listed, o);
      forall id | id in before
        ensures IsPublished(beads, id, o) && id != beads[n].id
      {
        assert IsPublished(beads[..n], id, o);
        var k :| 0 <= k < n && beads[..n][k].id == id && Publishable(beads[..n][k], o);
        assert beads[k].id == id && Publishable(beads[k], o);
      }
      assert IsPublished(beads, beads[n].id, o) || !Publishable(beads[n], o);
      assert forall i :: 0 <= i < |before| ==> before[i] in before;
    }
  }

  /** If all beads are quiet in a list, the run that created them created no more issues than the list holds. */
  lemma QuietBoundsNew(beads: seq<Bead>, first: Hub, listed: Hub, o: Options)
    requires DistinctIds(beads) && AllQuiet(listed, beads, o)
    ensures |NewIds(beads, first, o)| <= |listed|
  {
    hide FindIssue, Settled;
    var ids := NewIds(beads, first, o);
    NewIdsAreBeads(beads, first, o);
    forall i | 0 <= i < |ids|
      ensures FindIssue(listed, ids[i]).Some?
    {
      assert IsPublished(beads, ids[i], o);
      var k :| 0 <= k < |beads| && beads[k].id == ids[i] && Publishable(beads[k], o);
      assert Quiet(listed, beads[k], o);
    }
    IdsBound(listed, ids);
  }

  /** How many of the issues there were the next listing still reaches, once `created` newer ones are ahead of them. */
  function StillListed(hub: Hub, created: nat): (kept: nat)
    requires created <= LIST_LIMIT
    ensures kept <= |Listed(hub)| <= |hub|
  {
    if |hub| + created <= LIST_LIMIT then |hub| else LIST_LIMIT - created
  }

  /** The issues a run creates leave room in the listing for every issue a bead was found at, or for one as good. */
  predicate StaysListed(beads: seq<Bead>, hub: Hub, o: Options) {
    var created := |NewIds(beads, Listed(hub), o)|;
    created <= LIST_LIMIT
    && forall k :: 0 <= k < |beads| ==> StaysFound(beads[k], hub, StillListed(hub, created), o)
  }

  /**
   Publishing again is silent exactly when every published id is clean and the first run pushes no issue it needs out of
   the listing; whatever the beads say, whatever issues there were and however many.
   */
  lemma SecondPublishSilentIff(beads: seq<Bead>, hub: Hub, o: Options)
    requires DistinctIds(beads) && DistinctNumbers(hub)
    ensures var first := Publish(beads, hub, o);
            Silent(first.hub, Publish(beads, first.hub, o)) <==> AllClean(beads, o) && StaysListed(beads, hub, o)
  {
    hide PublishAll, DistinctNumbers, DistinctIds, CleanIfPublished, Quiet, StaysFound, FindIssue, NewIds;
    var start := Progress(hub, NOTHING, false);
    EveryRunKeeps(beads, Listed(hub), start, o);
    var first := Publish(beads, hub, o);
    var again := Progress(first.hub, NOTHING, false);
    if AllClean(beads, o) {
      SilentIffQuiet(beads, Listed(first.hub), again, o);
      RunInWindow(beads, hub, start, o, 0, "");
      var created := |NewIds(beads, Listed(hub), o)|;
      if created <= LIST_LIMIT {
        var kept := StillListed(hub, created);
        RunInWindow(beads, hub, start, o, kept, "");
        assert Listed(first.hub) == Window(first.hub, |hub|, kept);
      } else if AllQuiet(Listed(first.hub), beads, o) {
        QuietBoundsNew(beads, Listed(hub), Listed(first.hub), o);
      }
    } else {
      var k :| 0 <= k < |beads| && !CleanIfPublished(beads[k], o);
      UncleanCreates(beads, k, Listed(first.hub), again, o);
    }
  }

  /** As long as what the first run leaves fits one listing, clean ids are all it takes. */
  lemma SecondPublishSilentWhen(beads: seq<Bead>, hub: Hub, o: Options)
    requires DistinctIds(beads) && DistinctNumbers(hub) && |Publish(beads, hub, o).hub| <= LIST_LIMIT
    ensures var first := Publish(beads, hub, o);
            Silent(first.hub, Publish(beads, first.hub, o)) <==> AllClean(beads, o)
  {
    hide PublishAll, DistinctNumbers, DistinctIds, CleanIfPublished, FindIssue, NewIds, Settled;
    SecondPublishSilentIff(beads, hub, o);
    if AllClean(beads, o) {
      var start := Progress(hub, NOTHING, false);
      EveryRunKeeps(beads, Listed(hub), start, o);
      RunInWindow(beads, hub, start, o, 0, "");
      assert hub[..|hub|] == hub;
    }
  }

  lemma {:induction false} NotFoundWhen(listed: Hub, id: string)
    requires forall k :: 0 <= k < |listed| ==> MarkerId(listed[k].body) != Some(id)
    ensures FindIssue(listed, id).None?
    decreases |listed|
  {
    hide MarkerId;
    if listed != [] {
      NotFoundWhen(listed[..|listed| - 1], id);
    }
  }

  /** An issue older than the listing reaches is not found, settled or not: its bead is published anew. */
  lemma PastListingCreates(b: Bead, hub: Hub, o: Options)
    requires Publishable(b, o) && |hub| > LIST_LIMIT
    requires forall k :: 0 <= k < LIST_LIMIT ==> MarkerId(hub[k].body) != Some(b.id)
    ensures Publish([b], hub, o).tally.created == 1
  {
    hide MarkerId, ProjectBody, WantedLabels, FindIssue, FreshNumber;
    NotFoundWhen(Listed(hub), b.id);
    var start := Progress(hub, NOTHING, false);
    assert PublishAll([b][..0], Listed(hub), start, o) == start;
    assert [b][|[b]| - 1] == b;
  }

  // ---- imported issues --------------------------------------------------------------------------------------------

  function ImportedNumbers(exported: seq<Bead>): set<nat> {
    set b | b in exported && ImportedNumber(b.externalRef).Some? :: ImportedNumber(b.externalRef).value
  }

  /** No run touches an issue some bead was imported from, even one that carries a published bead's marker. */
  lemma ImportsUntouched(exported: seq<Bead>, beads: seq<Bead>, hub: Hub, includeClosed: bool, b: Bead, k: nat)
    requires DistinctNumbers(hub) && b in exported && k < |hub| && ImportedNumber(b.externalRef) == Some(hub[k].number)
    ensures var after := Publish(beads, hub, Options(includeClosed, ImportedNumbers(exported))).hub;
            |hub| <= |after| && after[|after| - |hub| + k] == hub[k]
  {
    hide PublishAll, DistinctNumbers, ImportedNumber;
    var o := Options(includeClosed, ImportedNumbers(exported));
    EveryRunKeeps(beads, Listed(hub), Progress(hub, NOTHING, false), o);
    assert hub[k].number in o.protected;
  }
}
