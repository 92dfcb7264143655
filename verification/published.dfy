/**
 What the issues a run leaves say: every text a run wrote is some bead's own, every bead it published has its issue, and
 labels and references mean what the publisher's tables say.
 */
module Published {
  import opened Wrappers
  import opened Marker
  import opened Publisher
  import opened Publishing

  // ---- labels and references --------------------------------------------------------------------------------------

  /** The labels a bead asks for, by name. */
  lemma WantedLabel(b: Bead, name: string)
    ensures name in WantedLabels(b)
            <==> || (name == "vanilla-parity" && "vanilla" in b.labels)
                 || (name == "enhanced" && "enhanced" in b.labels)
                 || (name == "status:missing" && b.status == "open")
                 || (name == "status:partial" && b.status == "in_progress")
                 || (exists l :: l in b.labels && name == "area:" + l
                                 && l != "vanilla" && l != "enhanced" && l != "roadmap")
  {
  }

  /** The labels a run may take away: the two exact ones, and any under `area:` or `status:`. */
  lemma ManagedLabel(name: string)
    ensures IsManaged(name)
            <==> || name == "vanilla-parity" || name == "enhanced"
                 || (|name| >= 5 && name[..5] == "area:") || (|name| >= 7 && name[..7] == "status:")
  {
  }

  function Digits(n: nat): string {
    if n < 10 then ["0123456789"[n]] else Digits(n / 10) + ["0123456789"[n % 10]]
  }

  lemma DigitOf(c: char)
    requires '0' <= c <= '9'
    ensures "0123456789"[(c - '0') as nat] == c
  {
  }

  lemma DigitIs(d: nat)
    requires d < 10
    ensures '0' <= "0123456789"[d] <= '9' && ("0123456789"[d] - '0') as nat == d
    ensures "0123456789"[d] == '0' <==> d == 0
  {
  }

  lemma {:induction false} DigitsRead(n: nat)
    ensures Digits(n) != [] && AllDigits(Digits(n)) && Decimal(Digits(n)) == n && (Digits(n)[0] == '0' <==> n == 0)
  {
    DigitIs(n % 10);
    if n < 10 {
      assert Digits(n)[..0] == [];
    } else {
      DigitsRead(n / 10);
      assert Digits(n)[..|Digits(n)| - 1] == Digits(n / 10);
    }
  }

  lemma {:induction false} DecimalWrites(s: string)
    requires s != [] && AllDigits(s) && s[0] != '0'
    ensures Decimal(s) > 0 && Digits(Decimal(s)) == s
    decreases |s|
  {
    var front, last := s[..|s| - 1], s[|s| - 1];
    DigitOf(last);
    assert s == front + [last];
    if front == [] {
      assert Decimal(s) < 10;
    } else {
      DecimalWrites(front);
      var d := (last - '0') as nat;
      assert Decimal(s) == 10 * Decimal(front) + d && d < 10;
      assert Decimal(s) / 10 == Decimal(front) && Decimal(s) % 10 == d;
    }
  }

  /** A reference names the issue it was imported from exactly when it is `gh-` and a number without leading zeros. */
  lemma ImportedIff(ref: string, n: nat)
    ensures ImportedNumber(ref) == Some(n) <==> n > 0 && ref == "gh-" + Digits(n)
  {
    DigitsRead(n);
    if ImportedNumber(ref) == Some(n) {
      DecimalWrites(ref[3..]);
      assert ref == "gh-" + ref[3..];
    }
    if n > 0 && ref == "gh-" + Digits(n) {
      assert ref[3..] == Digits(n);
    }
  }

  /** A listing holds the newest thousand issues. */
  lemma ListsAThousand(hub: Hub, k: nat)
    requires k < |hub|
    ensures k < |Listed(hub)| <==> k < 1000
    ensures k < 1000 ==> Listed(hub)[k] == hub[k]
  {
  }

  // ---- a run's texts ----------------------------------------------------------------------------------------------

  /** An issue was made for the bead: its title, a body that reads as the bead's, and its labels. */
  predicate MadeFor(i: Issue, b: Bead) { i.title == b.title && Reads(i.body, b) && i.labels == WantedLabels(b) }

  /** Finished work is published only when asked for. */
  predicate ToPublish(b: Bead, o: Options) { b.status != "closed" || o.includeClosed }

  /** Issue `k` of those a run added was made for a bead that had none. */
  ghost predicate Made(after: Hub, beads: seq<Bead>, listed: Hub, o: Options, k: nat)
    requires k < |after|
  {
    exists b :: b in beads && FindIssue(listed, b.id).None? && ToPublish(b, o) && MadeFor(after[k], b)
  }

  /** A body that is not what it was reads as the bead's whose issue it is. */
  ghost predicate Rewritten(i: Issue, i': Issue, beads: seq<Bead>, listed: Hub) {
    i'.body == i.body
    || exists b :: b in beads && Owner(listed, b, i.number) && Reads(i'.body, b)
  }

  predicate Owner(listed: Hub, b: Bead, number: nat) {
    FindIssue(listed, b.id).Some? && FindIssue(listed, b.id).value.number == number
  }

  /** A bead that was to be published and had no issue has one, open or closed as the bead is. */
  predicate HasIssue(after: Hub, added: nat, b: Bead)
    requires added <= |after|
  {
    exists k: nat :: k < added && MadeFor(after[k], b) && after[k].open == (b.status != "closed")
  }

  ghost predicate Written(before: Hub, p: Progress, beads: seq<Bead>, listed: Hub, o: Options) {
    && |before| <= |p.hub|
    && (forall k: nat :: k < |p.hub| - |before| ==> Made(p.hub, beads, listed, o, k))
    && (forall k: nat :: k < |before| ==>
          Rewritten(before[k], p.hub[|p.hub| - |before| + k], beads, listed))
    && (!p.aborted ==>
          forall b :: b in beads && FindIssue(listed, b.id).None? && ToPublish(b, o) ==>
                        HasIssue(p.hub, |p.hub| - |before|, b))
  }

  lemma CreatedIsMade(hub: Hub, b: Bead, open: bool)
    ensures MadeFor(Created(hub, b).(open := open), b)
  {
    BodyReads(b);
    hide ProjectBody, Reads, FreshNumber, WantedLabels;
  }

  lemma ChangedReads(now: Issue, fetched: Issue, b: Bead)
    ensures Changed(now, fetched, b).body == now.body || Reads(Changed(now, fetched, b).body, b)
  {
    BodyReads(b);
    hide ProjectBody, Reads, WantedLabels, Strip;
  }

  /** An issue a run has added is none of those listed when it began. */
  lemma AddedIsNotListed(before: Hub, now: Hub, o: Options, listed: Issue, k: nat)
    requires Keeps(before, now, o) && DistinctNumbers(now) && listed in before && k < |now| - |before|
    ensures now[k].number != listed.number
  {
    var j :| 0 <= j < |before| && before[j] == listed;
    assert now[|now| - |before| + j].number == listed.number;
  }

  lemma MoreBeads(before: Hub, p: Progress, front: seq<Bead>, b: Bead, listed: Hub, o: Options)
    requires Written(before, p, front, listed, o)
    ensures forall k: nat :: k < |p.hub| - |before| ==> Made(p.hub, front + [b], listed, o, k)
    ensures forall k: nat :: k < |before| ==>
              Rewritten(before[k], p.hub[|p.hub| - |before| + k], front + [b], listed)
  {
    hide MadeFor, Owner, ToPublish, FindIssue, HasIssue;
    assert forall x :: x in front ==> x in front + [b];
    forall k: nat | k < |p.hub| - |before|
      ensures Made(p.hub, front + [b], listed, o, k)
    {
      assert Made(p.hub, front, listed, o, k);
    }
  }

  /** A turn that leaves the issues alone. */
  lemma WrittenSame(before: Hub, p: Progress, p': Progress, front: seq<Bead>, b: Bead, listed: Hub, o: Options)
    requires Written(before, p, front, listed, o) && p'.hub == p.hub && p'.aborted == p.aborted
    requires FindIssue(listed, b.id).Some? || !ToPublish(b, o)
    ensures Written(before, p', front + [b], listed, o)
  {
    MoreBeads(before, p, front, b, listed, o);
    hide Made, Rewritten, HasIssue, FindIssue, ToPublish;
  }

  lemma HasIssueStill(hub: Hub, after: Hub, added: nat, added': nat, shift: nat, b: Bead)
    requires added <= |hub| && HasIssue(hub, added, b) && added' == added + shift <= |after|
    requires forall k: nat :: k < added ==> after[k + shift] == hub[k]
    ensures HasIssue(after, added', b)
  {
    hide MadeFor;
    var k: nat :| k < added && MadeFor(hub[k], b) && hub[k].open == (b.status != "closed");
    assert MadeFor(after[k + shift], b) && after[k + shift].open == (b.status != "closed");
  }

  lemma MadeStill(hub: Hub, after: Hub, beads: seq<Bead>, listed: Hub, o: Options, k: nat, j: nat)
    requires k < |hub| && j < |after| && after[j] == hub[k] && Made(hub, beads, listed, o, k)
    ensures Made(after, beads, listed, o, j)
  {
  }

  /** A turn that creates an issue. */
  lemma WrittenCreate(before: Hub, p: Progress, p': Progress, issue: Issue, front: seq<Bead>, b: Bead, listed: Hub,
                      o: Options)
    requires Written(before, p, front, listed, o) && p'.hub == [issue] + p.hub && !p.aborted
    requires FindIssue(listed, b.id).None? && ToPublish(b, o) && MadeFor(issue, b)
    requires !p'.aborted ==> issue.open == (b.status != "closed")
    ensures Written(before, p', front + [b], listed, o)
  {
    hide FindIssue, ToPublish, MadeFor, Rewritten;
    MoreBeads(before, p, front, b, listed, o);
    var n, added := |before|, |p.hub| - |before|;
    assert Made(p'.hub, front + [b], listed, o, 0) by {
      assert b in front + [b] && p'.hub[0] == issue;
    }
    forall k: nat | k < |p'.hub| - n
      ensures Made(p'.hub, front + [b], listed, o, k)
    {
      if k > 0 {
        MadeStill(p.hub, p'.hub, front + [b], listed, o, k - 1, k);
      }
    }
    forall x | x in front + [b] && FindIssue(listed, x.id).None? && ToPublish(x, o) && !p'.aborted
      ensures HasIssue(p'.hub, added + 1, x)
    {
      if x in front {
        HasIssueStill(p.hub, p'.hub, added, added + 1, 1, x);
      } else {
        assert p'.hub[0] == issue;
      }
    }
    hide Made, HasIssue;
  }

  /** A turn that reconciles the issue it was found at. */
  lemma WrittenChange(before: Hub, p: Progress, p': Progress, found: Issue, front: seq<Bead>, b: Bead, listed: Hub,
                      o: Options)
    requires Written(before, p, front, listed, o) && !p.aborted && !p'.aborted
    requires Keeps(before, p.hub, o) && DistinctNumbers(p.hub) && found in before
    requires FindIssue(listed, b.id) == Some(found) && p'.hub == Reconciled(p.hub, found, b)
    ensures Written(before, p', front + [b], listed, o)
  {
    hide MadeFor, Changed, FindIssue, ToPublish, HasIssue, Made, Keeps, DistinctNumbers;
    MoreBeads(before, p, front, b, listed, o);
    var n, added := |before|, |p.hub| - |before|;
    forall k: nat | k < added
      ensures p'.hub[k] == p.hub[k]
    {
      AddedIsNotListed(before, p.hub, o, found, k);
    }
    forall k: nat | k < added
      ensures Made(p'.hub, front + [b], listed, o, k)
    {
      MadeStill(p.hub, p'.hub, front + [b], listed, o, k, k);
    }
    forall k: nat | k < n
      ensures Rewritten(before[k], p'.hub[added + k], front + [b], listed)
    {
      NumbersKept(before, p.hub, o, k);
      ChangedReads(p.hub[added + k], found, b);
      assert b in front + [b];
      assert Rewritten(before[k], p.hub[added + k], front + [b], listed);
    }
    forall x | x in front + [b] && FindIssue(listed, x.id).None? && ToPublish(x, o)
      ensures HasIssue(p'.hub, added, x)
    {
      HasIssueStill(p.hub, p'.hub, added, added, 0, x);
    }
  }

  lemma NumbersKept(before: Hub, now: Hub, o: Options, k: nat)
    requires Keeps(before, now, o) && k < |before|
    ensures now[|now| - |before| + k].number == before[k].number
  {
  }

  lemma {:induction false} FoundInListed(listed: Hub, id: string)
    requires FindIssue(listed, id).Some?
    ensures FindIssue(listed, id).value in listed
  {
    hide FindIssue;
    var k := FoundIsListed(listed, id);
  }

  /**
   Whatever the beads and the issues, at any point of a run: each issue it added was made for a bead that had none, a
   body that changed reads as the bead's whose issue it is, and a run that ended left an issue for every bead to be
   published that had none.
   */
  lemma {:induction false} RunWrites(beads: seq<Bead>, hub: Hub, o: Options)
    requires DistinctNumbers(hub)
    ensures Written(hub, Publish(beads, hub, o), beads, Listed(hub), o)
    decreases |beads|
  {
    hide Written, FindIssue, Keeps, DistinctNumbers, Reconciled, CreateOne, Counted, MadeFor;
    var listed := Listed(hub);
    if beads == [] {
      NothingWritten(hub, o);
    } else {
      var front, b := beads[..|beads| - 1], beads[|beads| - 1];
      assert beads == front + [b];
      RunWrites(front, hub, o);
      EveryRunKeeps(front, listed, Progress(hub, NOTHING, false), o);
      var p, found := Publish(front, hub, o), FindIssue(listed, b.id);
      var p' := Publish(beads, hub, o);
      if p.aborted {
        AbortedStays(hub, p, front, b, listed, o);
      } else if found.None? && ToPublish(b, o) {
        var issue := CreatedOne(p, b);
        WrittenCreate(hub, p, p', issue, front, b, listed, o);
      } else if found.None? || found.value.number in o.protected {
        WrittenSame(hub, p, p', front, b, listed, o);
      } else {
        FoundInListed(listed, b.id);
        WrittenChange(hub, p, p', found.value, front, b, listed, o);
      }
    }
  }

  lemma NothingWritten(hub: Hub, o: Options)
    ensures Written(hub, Publish([], hub, o), [], Listed(hub), o)
  {
  }

  lemma AbortedStays(before: Hub, p: Progress, front: seq<Bead>, b: Bead, listed: Hub, o: Options)
    requires Written(before, p, front, listed, o) && p.aborted
    ensures Written(before, p, front + [b], listed, o)
  {
    MoreBeads(before, p, front, b, listed, o);
    hide Made, Rewritten, HasIssue;
  }

  lemma CreatedOne(p: Progress, b: Bead) returns (issue: Issue)
    ensures CreateOne(p, b).hub == [issue] + p.hub && MadeFor(issue, b)
    ensures !CreateOne(p, b).aborted ==> issue.open == (b.status != "closed")
  {
    hide Created, MarkerId, MadeFor;
    issue := CreateOne(p, b).hub[0];
    CreatedIsMade(p.hub, b, true);
    CreatedIsMade(p.hub, b, false);
    CreatedOpen(p.hub, b);
  }

  lemma CreatedOpen(hub: Hub, b: Bead)
    ensures Created(hub, b).open && Created(hub, b).(open := true) == Created(hub, b)
  {
    hide ProjectBody, FreshNumber, WantedLabels;
  }
}
