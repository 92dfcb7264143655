/**
 Three machines each actor is driven by once a frame: the latch that keeps a side step from flipping, the special pose
 an animation sub selects, and the phases of a death. What holds is stated over whole runs of frames.
 */
module ActorState {
  import opened Wrappers

  // ---- the side-step latch ----------------------------------------------------------------------------------------

  datatype Direction = Still | Forward | Left | Right | Backward

  const STRAIGHT_FRAMES: real := 2.0

  /** From one side step straight to the other. */
  predicate Flips(before: Direction, after: Direction) {
    (before == Left && after == Right) || (before == Right && after == Left)
  }

  /** One frame of travel: the bucket it is classified in, and how far the rendered-frame clock advanced. */
  datatype Travel = Travel(classified: Direction, rendered: real)

  datatype Latch = Latch(shown: Direction, owed: real)

  const UNLATCHED := Latch(Still, 0.0)

  function NotBelowZero(x: real): real { if x > 0.0 then x else 0.0 }

  function Latched(l: Latch, t: Travel): Latch {
    if t.classified.Still? then l.(shown := Still)
    else
      var owed := if Flips(l.shown, t.classified) then STRAIGHT_FRAMES else l.owed;
      if owed > 0.0 then Latch(Forward, NotBelowZero(owed - t.rendered)) else Latch(t.classified, owed)
  }

  class SideStepFlipLatch {
    var shown: Direction
    var straightOwed: real

    function View(): Latch
      reads this
    {
      Latch(shown, straightOwed)
    }

    constructor ()
      ensures View() == UNLATCHED
    {
      shown, straightOwed := Still, 0.0;
    }

    method Advance(classified: Direction, renderedFrames: real) returns (read: Direction)
      modifies this
      ensures View() == Latched(old(View()), Travel(classified, renderedFrames)) && read == shown
    {
      if classified == Still {
        shown := Still;
        return Still;
      }
      if (shown == Left && classified == Right) || (shown == Right && classified == Left) {
        straightOwed := STRAIGHT_FRAMES;
      }
      if straightOwed > 0.0 {
        straightOwed := NotBelowZero(straightOwed - renderedFrames);
        shown := Forward;
      } else {
        shown := classified;
      }
      return shown;
    }
  }

  function LatchRun(l: Latch, frames: seq<Travel>): Latch
    decreases |frames|
  {
    if frames == [] then l else LatchRun(Latched(l, frames[0]), frames[1..])
  }

  /** What the chooser reads over a run. */
  function Shown(l: Latch, frames: seq<Travel>): (shown: seq<Direction>)
    ensures |shown| == |frames|
    decreases |frames|
  {
    if frames == [] then [] else [Latched(l, frames[0]).shown] + Shown(Latched(l, frames[0]), frames[1..])
  }

  /** No two frames in a row, the one before included, go from one side step straight to the other. */
  predicate NoFlips(before: Direction, shown: seq<Direction>)
    decreases |shown|
  {
    shown == [] || (!Flips(before, shown[0]) && NoFlips(shown[0], shown[1..]))
  }

  /** Whatever the travel, the chooser never goes from one side step straight to the other. */
  lemma {:induction false} NeverFlips(l: Latch, frames: seq<Travel>)
    ensures NoFlips(l.shown, Shown(l, frames))
    decreases |frames|
  {
    if frames != [] {
      NeverFlips(Latched(l, frames[0]), frames[1..]);
    }
  }

  function Buckets(frames: seq<Travel>): (buckets: seq<Direction>)
    ensures |buckets| == |frames|
  {
    seq(|frames|, k requires 0 <= k < |frames| => frames[k].classified)
  }

  /** With nothing owed a run passes through untouched exactly when it holds no direct flip. */
  lemma {:induction false} PassesThroughWhen(l: Latch, frames: seq<Travel>)
    requires l.owed == 0.0
    ensures Shown(l, frames) == Buckets(frames) <==> NoFlips(l.shown, Buckets(frames))
    decreases |frames|
  {
    if frames != [] {
      var l' := Latched(l, frames[0]);
      assert Buckets(frames) == [frames[0].classified] + Buckets(frames[1..]);
      if Flips(l.shown, frames[0].classified) {
        assert Shown(l, frames)[0] != Buckets(frames)[0];
        assert Flips(l.shown, Buckets(frames)[0]);
      } else {
        PassesThroughWhen(l', frames[1..]);
        assert Shown(l, frames) == [frames[0].classified] + Shown(l', frames[1..]);
        assert Shown(l, frames)[1..] == Shown(l', frames[1..]) && Buckets(frames)[1..] == Buckets(frames[1..]);
      }
    }
  }

  /** Rendered time spent moving; still frames do not count. */
  function MovingTime(frames: seq<Travel>): real
    decreases |frames|
  {
    if frames == [] then 0.0
    else (if frames[0].classified.Still? then 0.0 else frames[0].rendered) + MovingTime(frames[1..])
  }

  predicate Forwards(frames: seq<Travel>) { forall k :: 0 <= k < |frames| ==> frames[k].rendered >= 0.0 }

  lemma {:induction false} MovingTimeNotNegative(frames: seq<Travel>)
    requires Forwards(frames)
    ensures MovingTime(frames) >= 0.0
    decreases |frames|
  {
    if frames != [] {
      MovingTimeNotNegative(frames[1..]);
    }
  }

  /** A run in which straight gait is owed pays it off by moving time alone; nothing inside it owes more. */
  lemma {:induction false} PaysOff(l: Latch, frames: seq<Travel>)
    requires l.owed > 0.0 && !l.shown.Left? && !l.shown.Right? && Forwards(frames)
    requires frames != [] ==> MovingTime(frames[..|frames| - 1]) < l.owed
    ensures var after := LatchRun(l, frames);
            && after.owed == NotBelowZero(l.owed - MovingTime(frames))
            && !after.shown.Left? && !after.shown.Right?
            && forall k :: 0 <= k < |frames| ==>
                             Shown(l, frames)[k] == if frames[k].classified.Still? then Still else Forward
    decreases |frames|
  {
    if frames != [] {
      var l' := Latched(l, frames[0]);
      var rest := frames[1..];
      if rest != [] {
        assert frames[..|frames| - 1][1..] == rest[..|rest| - 1];
        MovingTimeNotNegative(rest[..|rest| - 1]);
        PaysOff(l', rest);
      }
    }
  }

  lemma {:induction false} ShownAt(l: Latch, frames: seq<Travel>, k: nat)
    requires k < |frames|
    ensures Shown(l, frames)[k] == Latched(LatchRun(l, frames[..k]), frames[k]).shown
    ensures LatchRun(l, frames[..k + 1]) == Latched(LatchRun(l, frames[..k]), frames[k])
    decreases |frames|
  {
    if k > 0 {
      assert frames[..k][1..] == frames[1..][..k - 1] && frames[..k + 1][1..] == frames[1..][..k];
      ShownAt(Latched(l, frames[0]), frames[1..], k - 1);
    } else {
      assert frames[..1][1..] == [];
    }
  }

  /**
   A direct flip shows straight gait for exactly the shortest run of moving frames, its own included, whose rendered
   time reaches two: a frame before that is forced, still ones excepted, and the first one after shows its own bucket.
   */
  lemma {:induction false} FlipForcesStraight(l: Latch, frames: seq<Travel>, k: nat)
    requires k < |frames| && Flips(l.shown, frames[0].classified) && Forwards(frames)
    requires k > 0 ==> MovingTime(frames[..k - 1]) < 2.0
    ensures MovingTime(frames[..k]) < 2.0 ==>
              Shown(l, frames)[k] == if frames[k].classified.Still? then Still else Forward
    ensures MovingTime(frames[..k]) >= 2.0 ==>
              Shown(l, frames)[k] == frames[k].classified && LatchRun(l, frames[..k]).owed == 0.0
  {
    var armed := Latch(Forward, STRAIGHT_FRAMES);
    assert Latched(l, frames[0]) == Latched(armed, frames[0]);
    SameStart(l, armed, frames);
    if k > 0 {
      assert frames[..k][..|frames[..k]| - 1] == frames[..k - 1];
      SameStart(l, armed, frames[..k]);
    }
    PaysOff(armed, frames[..k]);
    ShownAt(armed, frames, k);
  }

  lemma SameStart(l: Latch, m: Latch, frames: seq<Travel>)
    requires frames != [] && Latched(l, frames[0]) == Latched(m, frames[0])
    ensures Shown(l, frames) == Shown(m, frames) && LatchRun(l, frames) == LatchRun(m, frames)
  {
  }

  // ---- the special pose -------------------------------------------------------------------------------------------

  const LOAD_ROUTINE := "init"
  const ROUTINES: seq<string> := [LOAD_ROUTINE, "ini1", "ini2", "ini3", LOAD_ROUTINE, "ini1", "ini2", "ini3"]
  const INVISIBLE_STATUS: byte := 3

  /** The routine a sub names; the load routine is none. */
  function SpecialRoutine(sub: byte): (routine: Option<string>)
    ensures routine != Some(LOAD_ROUTINE)
  {
    var name := ROUTINES[sub % |ROUTINES|];
    if name != LOAD_ROUTINE then Some(name) else None
  }

  /** The first and fifth subs of every eight name none, the others the routine of their last two bits. */
  lemma RoutineOfSub(sub: byte)
    ensures sub % 4 == 0 ==> SpecialRoutine(sub) == None
    ensures sub % 4 == 1 ==> SpecialRoutine(sub) == Some("ini1")
    ensures sub % 4 == 2 ==> SpecialRoutine(sub) == Some("ini2")
    ensures sub % 4 == 3 ==> SpecialRoutine(sub) == Some("ini3")
  {
    assert "ini1" != "init" && "ini2" != "init" && "ini3" != "init" by {
      assert "ini1"[3] != "init"[3] && "ini2"[3] != "init"[3] && "ini3"[3] != "init"[3];
    }
  }

  datatype SpecialPose = SpecialPose(sub: byte, hidden: bool, activeRoutine: Option<string>, slotHeld: bool)

  const NO_POSE := SpecialPose(0, false, None, false)

  datatype Wire = Wire(status: byte, sub: byte) {
    predicate Hides() { status == INVISIBLE_STATUS }
  }

  datatype SpecialPoseStep = SpecialPoseStep(pose: SpecialPose, triggered: Option<string>)

  function NextSpecialPose(prev: SpecialPose, w: Wire): SpecialPoseStep {
    var routine := SpecialRoutine(w.sub);
    var (active, held, triggered) :=
      if w.Hides() then (prev.activeRoutine, prev.slotHeld, None)
      else if prev.hidden then (Some(LOAD_ROUTINE), false, Some(LOAD_ROUTINE))
      else if w.sub != prev.sub then
        if routine.Some? then (routine, true, routine) else (prev.activeRoutine, false, None)
      else if routine.None? then (prev.activeRoutine, false, None)
      else (prev.activeRoutine, prev.slotHeld, None);
    SpecialPoseStep(SpecialPose(w.sub, w.Hides(), active, held), triggered)
  }

  /**
   A hidden actor, its status 3, keeps its routine. One just showing again loads; one whose sub changes while it shows
   takes the routine that sub names, if it names one.
   */
  lemma NextPoseCases(prev: SpecialPose, status: byte, sub: byte)
    ensures var next := NextSpecialPose(prev, Wire(status, sub));
            && next.pose.sub == sub && (next.pose.hidden <==> status == 3)
            && (status == 3 ==> next.triggered == None && next.pose.activeRoutine == prev.activeRoutine)
            && (status != 3 && prev.hidden ==>
                  next.triggered == Some("init") && next.pose.activeRoutine == Some("init"))
            && (status != 3 && !prev.hidden ==>
                  next.triggered == if sub != prev.sub then SpecialRoutine(sub) else None)
  {
  }

  /** The pose after a run from the default state. */
  function PoseAfter(wires: seq<Wire>): SpecialPose
    decreases |wires|
  {
    if wires == [] then NO_POSE
    else NextSpecialPose(PoseAfter(wires[..|wires| - 1]), wires[|wires| - 1]).pose
  }

  /** What the last frame of a run triggers. */
  function TriggeredLast(wires: seq<Wire>): Option<string>
    requires wires != []
  {
    NextSpecialPose(PoseAfter(wires[..|wires| - 1]), wires[|wires| - 1]).triggered
  }

  function InitTriggers(wires: seq<Wire>): nat
    decreases |wires|
  {
    if wires == [] then 0
    else InitTriggers(wires[..|wires| - 1]) + if TriggeredLast(wires) == Some(LOAD_ROUTINE) then 1 else 0
  }

  /** Frames that show an actor the frame before hid. */
  function Resurfacings(wires: seq<Wire>): nat
    decreases |wires|
  {
    if |wires| < 2 then 0
    else
      Resurfacings(wires[..|wires| - 1])
      + if wires[|wires| - 2].Hides() && !wires[|wires| - 1].Hides() then 1 else 0
  }

  /** The load routine runs once for every time the actor resurfaces, and for nothing else. */
  lemma {:induction false} InitPerResurfacing(wires: seq<Wire>)
    ensures InitTriggers(wires) == Resurfacings(wires)
    decreases |wires|
  {
    if wires != [] {
      var front := wires[..|wires| - 1];
      InitPerResurfacing(front);
      if front != [] {
        assert PoseAfter(front).hidden == front[|front| - 1].Hides();
      }
    }
  }

  /** The most recent routine a run triggered. */
  function LastTriggered(wires: seq<Wire>): Option<string>
    decreases |wires|
  {
    if wires == [] then None
    else if TriggeredLast(wires).Some? then TriggeredLast(wires)
    else LastTriggered(wires[..|wires| - 1])
  }

  /** The active routine is the one last triggered, and a hidden frame triggers nothing. */
  lemma {:induction false} ActiveIsLastTriggered(wires: seq<Wire>)
    ensures PoseAfter(wires).activeRoutine == LastTriggered(wires)
    ensures wires != [] && wires[|wires| - 1].Hides() ==> TriggeredLast(wires).None?
    decreases |wires|
  {
    if wires != [] {
      ActiveIsLastTriggered(wires[..|wires| - 1]);
    }
  }

  /** Frame `k`'s sub was changed to a named routine's by that frame, on an actor showing before and after it. */
  predicate Changes(wires: seq<Wire>, k: nat)
    requires k < |wires|
  {
    var before := if k == 0 then Wire(0, 0) else wires[k - 1];
    !before.Hides() && !wires[k].Hides() && wires[k].sub != before.sub && SpecialRoutine(wires[k].sub).Some?
  }

  /** From frame `k` on the actor has shown, and its sub stayed as it is. */
  predicate Keeps(wires: seq<Wire>, k: nat)
    requires k < |wires|
  {
    forall j :: k <= j < |wires| ==> !wires[j].Hides() && wires[j].sub == wires[k].sub
  }

  /** The sub was changed to a named routine's while the actor showed, and neither changed nor was hidden since. */
  predicate HeldByChange(wires: seq<Wire>) { exists k: nat :: k < |wires| && Changes(wires, k) && Keeps(wires, k) }

  lemma HeldByChangeStep(wires: seq<Wire>)
    requires wires != []
    ensures var n := |wires| - 1;
            HeldByChange(wires)
            <==> Changes(wires, n)
                 || (n > 0 && HeldByChange(wires[..n]) && !wires[n].Hides() && wires[n].sub == wires[n - 1].sub)
  {
    hide SpecialRoutine;
    var n := |wires| - 1;
    var front := wires[..n];
    if HeldByChange(wires) && !Changes(wires, n) {
      var k: nat :| k < |wires| && Changes(wires, k) && Keeps(wires, k);
      assert Changes(front, k) && Keeps(front, k);
    }
    if Changes(wires, n) {
      assert Keeps(wires, n);
    } else if n > 0 && HeldByChange(front) && !wires[n].Hides() && wires[n].sub == wires[n - 1].sub {
      var k: nat :| k < |front| && Changes(front, k) && Keeps(front, k);
      assert wires[n].sub == front[n - 1].sub == wires[k].sub;
      assert Changes(wires, k) && Keeps(wires, k);
    }
  }

  lemma HidingEndsHold(wires: seq<Wire>)
    requires wires != [] && wires[|wires| - 1].Hides()
    ensures !HeldByChange(wires)
  {
  }

  /**
   On a showing actor the slot holds the pose exactly when a change of sub while it showed does; and then the active
   routine is the one the sub names.
   */
  lemma {:induction false} SlotHeldWhen(wires: seq<Wire>)
    requires wires != [] && !wires[|wires| - 1].Hides()
    ensures PoseAfter(wires).slotHeld <==> HeldByChange(wires)
    ensures PoseAfter(wires).slotHeld ==> PoseAfter(wires).activeRoutine == SpecialRoutine(wires[|wires| - 1].sub)
    decreases |wires|
  {
    hide HeldByChange;
    var n := |wires| - 1;
    var front := wires[..n];
    HeldByChangeStep(wires);
    if n > 0 {
      assert PoseAfter(front).hidden == front[n - 1].Hides() && PoseAfter(front).sub == front[n - 1].sub;
      if front[n - 1].Hides() {
        HidingEndsHold(front);
      } else {
        SlotHeldWhen(front);
        if HeldByChange(front) {
          HeldNamesRoutine(front);
        }
      }
    }
  }

  lemma HeldNamesRoutine(wires: seq<Wire>)
    requires HeldByChange(wires)
    ensures wires != [] && SpecialRoutine(wires[|wires| - 1].sub).Some?
  {
    var k: nat :| k < |wires| && Changes(wires, k) && Keeps(wires, k);
    assert wires[|wires| - 1].sub == wires[k].sub;
  }

  // ---- death ------------------------------------------------------------------------------------------------------

  datatype DeathPhase = Unobserved | Alive | Collapsing(remaining: real) | Corpse

  datatype Sight = Sight(dead: bool, collapseFrames: real, elapsed: real)

  function NextDeathPhase(prev: DeathPhase, s: Sight): DeathPhase {
    if !s.dead then Alive
    else
      match prev
      case Unobserved => Corpse
      case Alive => if s.collapseFrames > 0.0 then Collapsing(s.collapseFrames) else Corpse
      case Collapsing(remaining) => if remaining - s.elapsed <= 0.0 then Corpse else Collapsing(remaining - s.elapsed)
      case Corpse => Corpse
  }

  function PhaseAfter(start: DeathPhase, sights: seq<Sight>): DeathPhase
    decreases |sights|
  {
    if sights == [] then start
    else NextDeathPhase(PhaseAfter(start, sights[..|sights| - 1]), sights[|sights| - 1])
  }

  predicate StaysDead(sights: seq<Sight>) {
    forall k :: 0 <= k < |sights| ==> sights[k].dead && sights[k].elapsed >= 0.0
  }

  function Elapsed(sights: seq<Sight>): real
    decreases |sights|
  {
    if sights == [] then 0.0 else Elapsed(sights[..|sights| - 1]) + sights[|sights| - 1].elapsed
  }

  /**
   A death seen from alive: what remains of the collapse is its length less the time since it began, as long as that is
   positive, and from then on the body lies.
   */
  lemma {:induction false} CollapseClock(fell: Sight, sights: seq<Sight>)
    requires fell.dead && StaysDead(sights)
    ensures var remaining := fell.collapseFrames - Elapsed(sights);
            PhaseAfter(NextDeathPhase(Alive, fell), sights) == if remaining > 0.0 then Collapsing(remaining) else Corpse
    decreases |sights|
  {
    if sights != [] {
      CollapseClock(fell, sights[..|sights| - 1]);
    }
  }

  /** Until it lives again a corpse stays one, and a body first seen dead was never anything else. */
  lemma {:induction false} CorpseStays(start: DeathPhase, sights: seq<Sight>)
    requires StaysDead(sights) && (start.Corpse? || (start.Unobserved? && sights != []))
    ensures PhaseAfter(start, sights) == Corpse
    decreases |sights|
  {
    if |sights| > 1 || (sights != [] && start.Corpse?) {
      CorpseStays(start, sights[..|sights| - 1]);
    }
  }

  /** How often a run begins a collapse. */
  function Collapses(sights: seq<Sight>): nat
    decreases |sights|
  {
    if sights == [] then 0
    else
      var front := sights[..|sights| - 1];
      Collapses(front)
      + if PhaseAfter(Unobserved, sights).Collapsing? && !PhaseAfter(Unobserved, front).Collapsing? then 1 else 0
  }

  /** Deaths seen to happen: a live frame, then a dead one that has a collapse to show. */
  function DeathsSeen(sights: seq<Sight>): nat
    decreases |sights|
  {
    if |sights| < 2 then 0
    else
      var before, last := sights[|sights| - 2], sights[|sights| - 1];
      DeathsSeen(sights[..|sights| - 1]) + if !before.dead && last.dead && last.collapseFrames > 0.0 then 1 else 0
  }

  /** Every death seen to happen collapses once, and nothing else does. */
  lemma {:induction false} OneCollapsePerDeath(sights: seq<Sight>)
    ensures Collapses(sights) == DeathsSeen(sights)
    decreases |sights|
  {
    if sights != [] {
      var front := sights[..|sights| - 1];
      OneCollapsePerDeath(front);
      PhaseIsAlive(front);
    }
  }

  lemma PhaseIsAlive(sights: seq<Sight>)
    ensures PhaseAfter(Unobserved, sights).Alive? <==> sights != [] && !sights[|sights| - 1].dead
    ensures PhaseAfter(Unobserved, sights).Unobserved? <==> sights == []
  {
  }
}
