/**
 The publisher that projects beads onto GitHub issues: one issue a bead, found again by the hidden marker in its body.
 GitHub is a list of issues in the order it lists them, newest first.
 */
module Publisher {
  import opened Wrappers
  import opened Marker

  const LIST_LIMIT: nat := 1000

  // ---- beads and their projection ---------------------------------------------------------------------------------

  /** A bead. An absent description, criteria or reference reads as empty, an absent status as "open". */
  datatype Bead = Bead(id: string, title: string, description: string, acceptance: string, labels: set<string>,
                       status: string, externalRef: string)
  {
    predicate Closed() { status == "closed" }
  }

  predicate AllDigits(s: string) { forall k :: 0 <= k < |s| ==> '0' <= s[k] <= '9' }

  function Decimal(digits: string): nat
    requires AllDigits(digits)
  {
    if digits == [] then 0 else 10 * Decimal(digits[..|digits| - 1]) + (digits[|digits| - 1] - '0') as nat
  }

  /** The issue a reference of the form `gh-N` was imported from. */
  function ImportedNumber(ref: string): Option<nat> {
    if "gh-" <= ref && |ref| > 3 && ref[3] != '0' && AllDigits(ref[3..]) then Some(Decimal(ref[3..])) else None
  }

  predicate IsManaged(name: string) {
    name == "vanilla-parity" || name == "enhanced" || "area:" <= name || "status:" <= name
  }

  function Managed(labels: set<string>): set<string> { set l | l in labels && IsManaged(l) }

  function Unmanaged(labels: set<string>): set<string> { set l | l in labels && !IsManaged(l) }

  function StatusLabels(status: string): set<string> {
    if status == "open" then {"status:missing"} else if status == "in_progress" then {"status:partial"} else {}
  }

  function WantedLabels(b: Bead): set<string> {
    (if "vanilla" in b.labels then {"vanilla-parity"} else {})
    + (if "enhanced" in b.labels then {"enhanced"} else {})
    + (set l | l in b.labels - {"vanilla", "enhanced", "roadmap"} :: "area:" + l)
    + StatusLabels(b.status)
  }

  lemma WantedAreManaged(b: Bead)
    ensures Managed(WantedLabels(b)) == WantedLabels(b)
  {
    forall l | l in WantedLabels(b)
      ensures IsManaged(l)
    {
      if l in (set m | m in b.labels - {"vanilla", "enhanced", "roadmap"} :: "area:" + m) {
        assert "area:" <= l;
      }
    }
  }

  function Join(parts: seq<string>, separator: string): string
    requires parts != []
  {
    if |parts| == 1 then parts[0] else Join(parts[..|parts| - 1], separator) + separator + parts[|parts| - 1]
  }

  function Mention(id: string): string { "---\nTracked in beads as **`" + id + "`** (`bd show " + id + "`). " }

  function Policy(tracker: string): string {
    "This issue is a maintainer-managed projection of " + tracker + " — title/body edits are overwritten on the next "
    + "publish. Contributors can discuss here; maintainers record accepted changes in " + tracker + ".\n"
  }

  function Notice(id: string): string { Mention(id) + Policy("Beads") }

  function Parts(b: Bead): (parts: seq<string>)
    ensures |parts| >= 2
  {
    [if b.description != "" then b.description else "_No description._"]
    + (if b.acceptance != "" then ["### Acceptance criteria\n" + b.acceptance] else [])
    + [Notice(b.id) + MarkerText(b.id)]
  }

  function ProjectBody(b: Bead): string { Join(Parts(b), "\n\n") }

  /** Whatever the bead says, the projected body ends in its marker. */
  lemma BodyEndsInMarker(b: Bead) returns (at: nat)
    ensures EndsInMarker(ProjectBody(b), at, b.id)
  {
    hide EndsInMarker, Notice, MarkerText;
    var parts := Parts(b);
    var front := Join(parts[..|parts| - 1], "\n\n") + "\n\n" + Notice(b.id);
    assert ProjectBody(b) == front + MarkerText(b.id);
    MarkerTextEnds(front, b.id);
    at := |front|;
  }

  /** The marker of a projected body reads back as the bead's id exactly when the id is clean. */
  lemma ProjectedIdReadsBack(b: Bead)
    ensures MarkerId(ProjectBody(b)) == Some(b.id) <==> Clean(b.id)
  {
    hide ProjectBody, EndsInMarker, MarkerId, Clean;
    var at := BodyEndsInMarker(b);
    MarkerReadsBack(ProjectBody(b), at, b.id);
  }

  /**
   The text of a body: the bead's description or a stand-in for none, its acceptance criteria, if it has any, under
   their heading, and last a footer that names the bead and closes in its marker.
   */
  predicate Reads(body: string, b: Bead) {
    var lead := if b.description != "" then b.description else "_No description._";
    var next := |lead| + 2;
    var criteria := "### Acceptance criteria\n" + b.acceptance + "\n\n";
    var footer := if b.acceptance != "" then next + |criteria| else next;
    && lead + "\n\n" <= body
    && (if b.acceptance != "" then OccursAt(body, criteria, next)
        else !OccursAt(body, "### Acceptance criteria\n", next))
    && OccursAt(body, "---\nTracked in beads as **`" + b.id + "`** (`bd show " + b.id + "`). ", footer)
    && |b.id| + 19 <= |body| && body[|body| - |b.id| - 19..] == "<!-- beads-id: " + b.id + " -->"
  }

  function Lead(b: Bead): string { if b.description != "" then b.description else "_No description._" }

  function Criteria(b: Bead): string {
    if b.acceptance != "" then "### Acceptance criteria\n" + b.acceptance + "\n\n" else ""
  }

  lemma JoinTwo(a: string, b: string, separator: string)
    ensures Join([a, b], separator) == a + separator + b
  {
    assert [a, b][..1] == [a];
  }

  lemma JoinThree(a: string, b: string, c: string, separator: string)
    ensures Join([a, b, c], separator) == a + separator + (b + separator + c)
  {
    assert [a, b, c][..2] == [a, b];
    JoinTwo(a, b, separator);
    hide Join;
    assert a + separator + b + separator + c == a + separator + (b + separator + c);
  }

  lemma ProjectBodyIs(b: Bead)
    ensures ProjectBody(b) == Lead(b) + "\n\n" + (Criteria(b) + (Notice(b.id) + MarkerText(b.id)))
  {
    hide Join, Notice, MarkerText;
    var footer := Notice(b.id) + MarkerText(b.id);
    if b.acceptance != "" {
      var criteria := "### Acceptance criteria\n" + b.acceptance;
      assert Parts(b) == [Lead(b), criteria, footer];
      JoinThree(Lead(b), criteria, footer, "\n\n");
    } else {
      assert Parts(b) == [Lead(b), footer];
      JoinTwo(Lead(b), footer, "\n\n");
      assert Criteria(b) + footer == footer;
    }
  }

  lemma PartsRead(body: string, front: string, criteria: string, mention: string, rest: string, marker: string)
    requires body == front + (criteria + ((mention + rest) + marker))
    ensures front <= body && OccursAt(body, criteria, |front|) && OccursAt(body, mention, |front| + |criteria|)
    ensures |marker| <= |body| && body[|body| - |marker|..] == marker
  {
    assert body[..|front|] == front;
    assert body[|front|..] == criteria + ((mention + rest) + marker);
    assert forall k :: 0 <= k < |criteria| ==> body[|front|..][k] == criteria[k];
    assert forall k :: 0 <= k < |mention| ==> body[|front|..][|criteria| + k] == mention[k];
    assert body == (front + criteria + mention + rest) + marker;
  }

  /** Every body reads so. */
  lemma BodyReads(b: Bead)
    ensures Reads(ProjectBody(b), b)
  {
    ProjectBodyIs(b);
    MentionOpens(b.id);
    hide ProjectBody, Policy, Mention, MarkerText, OccursAt;
    var (body, front) := (ProjectBody(b), Lead(b) + "\n\n");
    PartsRead(body, front, Criteria(b), Mention(b.id), Policy("Beads"), MarkerText(b.id));
    if b.acceptance == "" {
      NoHeading(body, b.id, |front|);
    }
  }

  lemma NoHeading(body: string, id: string, at: nat)
    requires OccursAt(body, Mention(id), at)
    ensures !OccursAt(body, "### Acceptance criteria\n", at)
  {
    assert Mention(id)[0] == '-' && body[at + 0] == Mention(id)[0];
    assert "### Acceptance criteria\n"[0] == '#';
  }

  lemma MentionOpens(id: string)
    ensures Mention(id) == "---\nTracked in beads as **`" + id + "`** (`bd show " + id + "`). " && Mention(id)[0] == '-'
    ensures MarkerText(id) == "<!-- beads-id: " + id + " -->" && |MarkerText(id)| == |id| + 19
  {
  }

  // ---- issues -----------------------------------------------------------------------------------------------------

  datatype Issue = Issue(number: nat, title: string, body: string, labels: set<string>, open: bool)

  type Hub = seq<Issue>

  predicate DistinctNumbers(hub: Hub) { forall i, j :: 0 <= i < j < |hub| ==> hub[i].number != hub[j].number }

  function FreshNumber(hub: Hub): (number: nat)
    ensures forall i :: 0 <= i < |hub| ==> hub[i].number < number
  {
    if hub == [] then 1
    else
      var rest := FreshNumber(hub[..|hub| - 1]);
      if hub[|hub| - 1].number < rest then rest else hub[|hub| - 1].number + 1
  }

  function Listed(hub: Hub): Hub { if |hub| <= LIST_LIMIT then hub else hub[..LIST_LIMIT] }

  /** A bead's issue: the last one listed whose marker reads back as the id. */
  function FindIssue(listed: Hub, id: string): Option<Issue>
    decreases |listed|
  {
    if listed == [] then None
    else if MarkerId(listed[|listed| - 1].body) == Some(id) then Some(listed[|listed| - 1])
    else FindIssue(listed[..|listed| - 1], id)
  }

  lemma {:induction false} FoundIsListed(listed: Hub, id: string) returns (k: nat)
    requires FindIssue(listed, id).Some?
    ensures k < |listed| && FindIssue(listed, id) == Some(listed[k]) && MarkerId(listed[k].body) == Some(id)
    decreases |listed|
  {
    hide MarkerId;
    if MarkerId(listed[|listed| - 1].body) == Some(id) {
      k := |listed| - 1;
    } else {
      k := FoundIsListed(listed[..|listed| - 1], id);
    }
  }

  /** Only a clean id finds an issue. */
  lemma FoundIsClean(listed: Hub, id: string)
    requires FindIssue(listed, id).Some?
    ensures Clean(id)
  {
    hide MarkerId, Clean, FindIssue;
    var k := FoundIsListed(listed, id);
    ReadsBackClean(listed[k].body);
  }

  /** Indexing the list by marker, a later issue replacing an earlier one, looks up just that. */
  method FetchIssues(hub: Hub) returns (byId: map<string, Issue>)
    ensures forall id :: FindIssue(Listed(hub), id) == if id in byId then Some(byId[id]) else None
  {
    hide MarkerId;
    var listed := Listed(hub);
    byId := map[];
    for k := 0 to |listed|
      invariant forall id :: FindIssue(listed[..k], id) == if id in byId then Some(byId[id]) else None
    {
      assert listed[..k + 1][..k] == listed[..k];
      var bid := MarkerId(listed[k].body);
      if bid.Some? {
        byId := byId[bid.value := listed[k]];
      }
    }
    assert listed[..|listed|] == listed;
  }

  // ---- one bead ---------------------------------------------------------------------------------------------------

  /** What a matched issue becomes, the changes being those the issue as fetched asks for. */
  function Changed(now: Issue, fetched: Issue, b: Bead): Issue {
    var want, managed := WantedLabels(b), Managed(fetched.labels);
    Issue(now.number,
          if fetched.title != b.title then b.title else now.title,
          if Strip(fetched.body) != Strip(ProjectBody(b)) then ProjectBody(b) else now.body,
          now.labels + (want - managed) - (managed - want),
          if b.Closed() && fetched.open then false else if !b.Closed() && !fetched.open then true else now.open)
  }

  /** The issue shows the bead: nothing is left to change. */
  predicate Settled(i: Issue, b: Bead) {
    && i.title == b.title && Strip(i.body) == Strip(ProjectBody(b))
    && Managed(i.labels) == WantedLabels(b)
    && i.open == !b.Closed()
  }

  predicate NeedsEdit(i: Issue, b: Bead) {
    i.title != b.title || Strip(i.body) != Strip(ProjectBody(b)) || Managed(i.labels) != WantedLabels(b)
  }

  /** Reconciling settles an issue, keeping its number and every label outside the managed namespace. */
  lemma ChangedSettles(i: Issue, b: Bead)
    ensures Settled(Changed(i, i, b), b)
  {
    hide Strip, ProjectBody, WantedLabels, IsManaged;
    ChangedLabels(i.labels, i.labels, b);
  }

  lemma ChangedLabels(now: set<string>, fetched: set<string>, b: Bead)
    ensures var want, managed := WantedLabels(b), Managed(fetched);
            var labels := now + (want - managed) - (managed - want);
            && Unmanaged(labels) == Unmanaged(now)
            && (now == fetched ==> Managed(labels) == want)
  {
    WantedAreManaged(b);
    hide WantedLabels, IsManaged;
    forall l | l in WantedLabels(b)
      ensures IsManaged(l)
    {
      assert l in Managed(WantedLabels(b));
    }
  }

  datatype Tally = Tally(created: nat, updated: nat, closed: nat, reopened: nat, skipped: nat)

  const NOTHING := Tally(0, 0, 0, 0, 0)

  datatype Progress = Progress(hub: Hub, tally: Tally, aborted: bool)

  datatype Options = Options(includeClosed: bool, protected: set<nat>)

  /** A bead without an issue gets one, unless it is finished work not asked for. */
  predicate Publishable(b: Bead, o: Options) { !b.Closed() || o.includeClosed }

  function Created(hub: Hub, b: Bead): Issue { Issue(FreshNumber(hub), b.title, ProjectBody(b), WantedLabels(b), true) }

  function Reconciled(hub: Hub, fetched: Issue, b: Bead): (after: Hub)
    ensures |after| == |hub|
  {
    seq(|hub|, k requires 0 <= k < |hub| =>
          if hub[k].number == fetched.number then Changed(hub[k], fetched, b) else hub[k])
  }

  /** A new issue; one that is to be closed is read back first, and a run whose issue reads back wrong ends there. */
  function CreateOne(p: Progress, b: Bead): Progress {
    hide Created, MarkerId;
    var issue, t := Created(p.hub, b), p.tally.(created := p.tally.created + 1);
    if !b.Closed() then Progress([issue] + p.hub, t, p.aborted)
    else if MarkerId(issue.body) != Some(b.id) then Progress([issue] + p.hub, t, true)
    else Progress([issue.(open := false)] + p.hub, t.(closed := t.closed + 1), p.aborted)
  }

  /** The remote calls a matched issue takes. */
  function Counted(t: Tally, issue: Issue, b: Bead): Tally {
    hide NeedsEdit;
    Tally(t.created,
          if NeedsEdit(issue, b) then t.updated + 1 else t.updated,
          if b.Closed() && issue.open then t.closed + 1 else t.closed,
          if !b.Closed() && !issue.open then t.reopened + 1 else t.reopened,
          t.skipped)
  }

  /** What publishing one bead does, given the issue it was found at. */
  function PublishOne(p: Progress, found: Option<Issue>, b: Bead, o: Options): Progress {
    match found
    case None =>
      if Publishable(b, o) then CreateOne(p, b)
      else Progress(p.hub, p.tally.(skipped := p.tally.skipped + 1), p.aborted)
    case Some(issue) =>
      if issue.number in o.protected then p
      else Progress(Reconciled(p.hub, issue, b), Counted(p.tally, issue, b), p.aborted)
  }

  /** Publishing beads in order against the issues listed at the start, until one aborts. */
  function PublishAll(beads: seq<Bead>, listed: Hub, start: Progress, o: Options): Progress
    decreases |beads|
  {
    if beads == [] then start
    else
      var before := PublishAll(beads[..|beads| - 1], listed, start, o);
      var b := beads[|beads| - 1];
      if before.aborted then before else PublishOne(before, FindIssue(listed, b.id), b, o)
  }

  function Publish(beads: seq<Bead>, hub: Hub, o: Options): Progress {
    PublishAll(beads, Listed(hub), Progress(hub, NOTHING, false), o)
  }

  lemma {:induction false} AbortEnds(beads: seq<Bead>, k: nat, listed: Hub, start: Progress, o: Options)
    requires k <= |beads| && PublishAll(beads[..k], listed, start, o).aborted
    ensures PublishAll(beads, listed, start, o) == PublishAll(beads[..k], listed, start, o)
    decreases |beads| - k
  {
    hide PublishOne, FindIssue;
    if k == |beads| {
      assert beads[..k] == beads;
    } else {
      assert beads[..k + 1][..k] == beads[..k];
      AbortEnds(beads, k + 1, listed, start, o);
    }
  }

  // ---- the remote calls -------------------------------------------------------------------------------------------

  /** `issue edit`: texts that changed, labels to add and to remove. */
  method EditIssue(hub: Hub, number: nat, title: Option<string>, body: Option<string>, add: set<string>,
                   remove: set<string>)
    returns (after: Hub)
    ensures |after| == |hub|
    ensures forall k :: 0 <= k < |hub| ==>
              after[k] == if hub[k].number != number then hub[k]
                          else Issue(number, if title.Some? then title.value else hub[k].title,
                                     if body.Some? then body.value else hub[k].body,
                                     hub[k].labels + add - remove, hub[k].open)
  {
    after := hub;
    for k := 0 to |hub|
      invariant |after| == |hub| && after[k..] == hub[k..]
      invariant forall j :: 0 <= j < k ==>
                  after[j] == if hub[j].number != number then hub[j]
                              else Issue(number, if title.Some? then title.value else hub[j].title,
                                         if body.Some? then body.value else hub[j].body,
                                         hub[j].labels + add - remove, hub[j].open)
    {
      assert after[k] == after[k..][0];
      if after[k].number == number {
        after := after[k := Issue(number, if title.Some? then title.value else hub[k].title,
                                  if body.Some? then body.value else hub[k].body,
                                  hub[k].labels + add - remove, hub[k].open)];
      }
    }
  }

  /** `issue close` and `issue reopen`. */
  method SetOpen(hub: Hub, number: nat, open: bool) returns (after: Hub)
    ensures |after| == |hub|
    ensures forall k :: 0 <= k < |hub| ==>
              after[k] == if hub[k].number == number then hub[k].(open := open) else hub[k]
  {
    after := seq(|hub|, k requires 0 <= k < |hub| =>
                   if hub[k].number == number then hub[k].(open := open) else hub[k]);
  }

  /** One matched bead, as the reconcile loop goes about it. */
  method ReconcileIssue(hub: Hub, issue: Issue, b: Bead, t: Tally) returns (after: Hub, tally: Tally)
    ensures after == Reconciled(hub, issue, b)
    ensures tally == Counted(t, issue, b)
  {
    hide ProjectBody, WantedLabels, Strip, Managed;
    after, tally := hub, t;
    var body := ProjectBody(b);
    var want, managed := WantedLabels(b), Managed(issue.labels);
    var add, remove := want - managed, managed - want;
    var titleChanged := issue.title != b.title;
    var bodyChanged := Strip(issue.body) != Strip(body);
    assert add == {} && remove == {} <==> managed == want;
    if titleChanged || bodyChanged || add != {} || remove != {} {
      after := EditIssue(after, issue.number, if titleChanged then Some(b.title) else None,
                         if bodyChanged then Some(body) else None, add, remove);
      tally := tally.(updated := tally.updated + 1);
    }
    if b.Closed() && issue.open {
      after := SetOpen(after, issue.number, false);
      tally := tally.(closed := tally.closed + 1);
    } else if !b.Closed() && !issue.open {
      after := SetOpen(after, issue.number, true);
      tally := tally.(reopened := tally.reopened + 1);
    }
  }

  /** The reconcile loop. */
  method Run(beads: seq<Bead>, hub: Hub, o: Options) returns (p: Progress)
    ensures p == Publish(beads, hub, o)
  {
    hide ProjectBody, WantedLabels, Strip, Managed, FindIssue, Reconciled, NeedsEdit, FreshNumber;
    var listed := Listed(hub);
    ghost var start := Progress(hub, NOTHING, false);
    var existing := FetchIssues(hub);
    p := Progress(hub, NOTHING, false);
    for k := 0 to |beads|
      invariant p == PublishAll(beads[..k], listed, start, o) && !p.aborted
    {
      var b := beads[k];
      assert beads[..k + 1][..k] == beads[..k];
      if b.id !in existing {
        if b.Closed() && !o.includeClosed {
          p := p.(tally := p.tally.(skipped := p.tally.skipped + 1));
          continue;
        }
        var issue := Created(p.hub, b);
        p := p.(hub := [issue] + p.hub, tally := p.tally.(created := p.tally.created + 1));
        if b.Closed() {
          if MarkerId(issue.body) != Some(b.id) {
            p := p.(aborted := true);
            AbortEnds(beads, k + 1, listed, start, o);
            return;
          }
          p := p.(hub := [issue.(open := false)] + p.hub[1..], tally := p.tally.(closed := p.tally.closed + 1));
        }
        continue;
      }
      var issue := existing[b.id];
      if issue.number in o.protected {
        continue;
      }
      var after, tally := ReconcileIssue(p.hub, issue, b, p.tally);
      p := p.(hub := after, tally := tally);
    }
    assert beads[..|beads|] == beads;
  }
}
