// The life of a drive on its way out, over whole runs: the drive controller looks at the drive and its volumes and writes
// what it decided, the node writes the drive's usage when a release is settled or a removal fails
// (pkg/node/volumemgr.go:338-418, 544-555), and volumes, annotations and the drive's health change in between.

module DriveLife {
  import opened Types
  import opened CRHelper
  import opened DriveRemoval

  // ---- the machine ----

  /** `seen` is what a reconcile under way has read; `due` are settled releases that the node has still to write to
      the drive. */
  datatype World = World(site: Site, seen: Option<Site>, due: map<string, ReleaseNote>)

  datatype Event =
    | Looks
    | Acts(leds: Leds, others: bool, resynced: bool)
    | Settles(settled: string)
    | Marks(marked: string)
    | Drops(dropped: string)
    | RemovalFails(failed: string)
    | Changes(to: Site)

  /** What a reconcile that has read s decides. */
  ghost function Decided(s: Site, e: Event): Option<Drive>
    requires s.drive.Some? && e.Acts?
  {
    Reconciled(s, e.leds, e.others, e.resynced).drive
  }

  /** The drive after the write: an update fails if the drive has changed, a deletion goes by name
      (drivecontroller.go:134-146). */
  ghost function AfterActs(now: Option<Drive>, s: Site, e: Event): Option<Drive>
    requires s.drive.Some? && e.Acts?
  {
    match Decided(s, e)
    case None => None
    case Some(d) => if now == s.drive then Some(d) else now
  }

  /** The release annotation of a volume with usage RELEASING says done or failed. */
  predicate Settled(n: Notes) {
    n.usage.Releasing? && !n.release.NoNote?
  }

  /** retryDriveUpdate: whatever the usage was. */
  function MarkedDrive(d: Drive, id: string, note: ReleaseNote): Drive {
    if note.DoneNote? then d.(usage := DriveReleasing, released := d.released + {id}) else d.(usage := DriveFailed)
  }

  ghost predicate OnDrive(s: Site, id: string) {
    s.drive.Some? && AtPlace(s.volumes, PlaceIn(s), id)
  }

  ghost predicate Next(w: World, e: Event, t: World) {
    match e
    case Looks => t == w.(seen := Some(w.site))
    case Acts(_, _, _) =>
      && w.seen.Some? && w.seen.value.drive.Some?
      && t == w.(site := w.site.(drive := AfterActs(w.site.drive, w.seen.value, e)), seen := None)
    case Settles(id) =>
      && OnDrive(w.site, id) && Settled(NotesAt(w.site.notes, id)) && id !in w.due
      && var n := NotesAt(w.site.notes, id);
         t == w.(site := w.site.(notes := w.site.notes[id := n.(usage := if n.release.DoneNote? then Released else ReleaseFailed)]),
                 due := w.due[id := n.release])
    case Marks(id) =>
      && id in w.due && w.site.drive.Some?
      && t == w.(site := w.site.(drive := Some(MarkedDrive(w.site.drive.value, id, w.due[id]))), due := w.due - {id})
    case Drops(id) => t == w.(due := w.due - {id})
    case RemovalFails(id) =>
      && OnDrive(w.site, id) && w.site.volumes[id].status.Removing? && !w.site.volumes[id].missing
      && t == w.(site := w.site.(drive := Some(w.site.drive.value.(usage := DriveFailed)),
                                 volumes := w.site.volumes[id := w.site.volumes[id].(status := Failed)]))
    case Changes(s) => SameUsage(w.site.drive, s.drive) && t == w.(site := s)
  }

  /** What operators, discovery and the node change otherwise: not the usage, and no volume is newly marked as released. */
  predicate SameUsage(d: Option<Drive>, d': Option<Drive>) {
    (d.None? && d'.None?) ||
    (d.Some? && d'.Some? && d'.value.name == d.value.name && d'.value.usage == d.value.usage && d'.value.released <= d.value.released)
  }

  ghost predicate Run(ws: seq<World>, es: seq<Event>) {
    |ws| == |es| + 1 && forall k :: 0 <= k < |es| ==> Next(ws[k], es[k], ws[k + 1])
  }

  // ---- what a run knows ----

  predicate UsageIs(w: World, u: Usage) {
    w.site.drive.Some? && w.site.drive.value.usage == u
  }

  /** What a reconcile under way has read was the state at an earlier Looks. */
  lemma {:induction false} SeenBefore(ws: seq<World>, es: seq<Event>, k: nat) returns (l: nat)
    requires Run(ws, es) && ws[0].seen.None? && k < |ws| && ws[k].seen.Some?
    ensures l < k && es[l].Looks? && ws[k].seen == Some(ws[l].site)
  {
    if es[k - 1].Looks? {
      l := k - 1;
    } else {
      hide AfterActs, OnDrive;
      assert Next(ws[k - 1], es[k - 1], ws[k]);
      l := SeenBefore(ws, es, k - 1);
    }
  }

  /** The last step at which the drive came to usage u. */
  lemma {:induction false} LastEntry(ws: seq<World>, es: seq<Event>, n: nat, u: Usage) returns (k: nat)
    requires Run(ws, es) && n < |ws| && UsageIs(ws[n], u) && !UsageIs(ws[0], u)
    ensures k < n && !UsageIs(ws[k], u) && forall t :: k < t <= n ==> UsageIs(ws[t], u)
  {
    hide Next;
    if UsageIs(ws[n - 1], u) { k := LastEntry(ws, es, n - 1, u); } else { k := n - 1; }
  }

  /** A drive CR that is gone stays gone as far as the machine is concerned. */
  lemma GoneStaysGone(w: World, e: Event, t: World)
    requires Next(w, e, t) && w.site.drive.None?
    ensures t.site.drive.None?
  {
    hide Reconciled;
  }

  // ---- which step enters which stage ----

  /** The reconcile wrote: the drive was still the one it had read. */
  ghost predicate Wrote(w: World, e: Event) {
    e.Acts? && w.seen.Some? && w.seen.value.drive.Some? && w.site.drive == w.seen.value.drive
  }

  /** Every volume on the drive is marked as released on the drive. */
  ghost predicate ReleasedIn(s: Site) {
    s.drive.Some? && forall i :: i in s.volumes && s.volumes[i].location == PlaceIn(s) ==> i in s.drive.value.released
  }

  /** Every volume on the drive is fake-attached, or removed and not on an LVG. */
  ghost predicate GoneIn(s: Site) {
    s.drive.Some? && forall i :: i in s.volumes && s.volumes[i].location == PlaceIn(s) ==>
      NotesOf(s.notes, s.volumes[i]).fakeAttached || (s.volumes[i].status.Removed? && !(PlaceIn(s) in s.lvgs && s.volumes[i].onLVM))
  }

  predicate ForcedBy(d: Drive) {
    d.usage.DriveFailed? && d.action.RemoveAction?
  }

  function Rank(u: Usage): nat {
    match u
    case DriveInUse => 0
    case DriveReleasing => 1
    case DriveReleased => 2
    case DriveRemoving => 3
    case DriveRemoved | DriveFailed => 4
  }

  /** What a reconcile may make of drive d, n being what it decides. */
  predicate MayDecide(d: Drive, n: Option<Drive>, released: bool, gone: bool) {
    n.Some? ==>
      var u, v := d.usage, n.value.usage;
      && n.value.released == d.released
      && (v.DriveReleased? && u != v ==> u.DriveReleasing? && released)
      && (v.DriveRemoving? && u != v ==> u.DriveReleased?)
      && (v.DriveRemoved? && u != v ==> ForcedBy(d) || (u.DriveRemoving? && gone))
  }

  /** It steps back only when an operator takes a released or failed drive back. */
  predicate MayStepBack(d: Drive, n: Option<Drive>) {
    n.Some? ==>
      var u, v := d.usage, n.value.usage;
      && (Rank(v) < Rank(u) <==> d.action.AddAction? && (u.DriveReleased? || u.DriveFailed?))
      && (Rank(v) < Rank(u) ==> v.DriveInUse?)
  }

  lemma MachineMay(d: Drive, released: bool, gone: bool, leds: Leds, others: bool, resynced: bool)
    ensures MayDecide(d, DriveRemoval.Next(d, released, gone, leds, others, resynced), released, gone)
  {
  }

  lemma MachineSteps(d: Drive, released: bool, gone: bool, leds: Leds, others: bool, resynced: bool)
    ensures MayStepBack(d, DriveRemoval.Next(d, released, gone, leds, others, resynced))
    ensures DriveRemoval.Next(d, released, gone, leds, others, resynced).None? ==>
              d.usage.DriveRemoved? && !d.online && (others || leds.nodeStop) && resynced
  {
  }

  lemma ConditionsAgree(s: Site)
    requires s.drive.Some?
    ensures ReleasedIn(s) <==> AllReleased(s.volumes, PlaceIn(s), s.drive.value)
    ensures GoneIn(s) <==> AllGone(s.volumes, s.lvgs, s.notes, PlaceIn(s))
  {
    hide PlaceIn;
    assert forall i :: AtPlace(s.volumes, PlaceIn(s), i) <==> i in s.volumes && s.volumes[i].location == PlaceIn(s);
  }

  lemma DecidedIs(s: Site, e: Event)
    requires s.drive.Some? && e.Acts?
    ensures MayDecide(s.drive.value, Decided(s, e), ReleasedIn(s), GoneIn(s)) && MayStepBack(s.drive.value, Decided(s, e))
    ensures Decided(s, e).None? ==>
              s.drive.value.usage.DriveRemoved? && !s.drive.value.online && (e.others || e.leds.nodeStop) && e.resynced
  {
    ConditionsAgree(s);
    MachineMay(s.drive.value, ReleasedIn(s), GoneIn(s), e.leds, e.others, e.resynced);
    MachineSteps(s.drive.value, ReleasedIn(s), GoneIn(s), e.leds, e.others, e.resynced);
    hide DriveRemoval.Next, AllReleased, AllGone, Marked, NotesAfter, MayDecide, MayStepBack, ReleasedIn, GoneIn;
  }

  lemma DecidesMove(s: Site, e: Event, to: Usage)
    requires s.drive.Some? && e.Acts? && to != s.drive.value.usage
    ensures Decided(s, e).Some? && Decided(s, e).value.usage == to <==> MovesTo(s.drive.value, to, ReleasedIn(s), GoneIn(s), e.leds)
  {
    ConditionsAgree(s);
    MovesExactly(s.drive.value, ReleasedIn(s), GoneIn(s), e.leds, e.others, e.resynced, to);
    hide DriveRemoval.Next, AllReleased, AllGone, Marked, NotesAfter, MovesTo, ReleasedIn, GoneIn, PlaceIn;
  }

  /** The node writes u to the drive: a finished or a failed release, or a failed removal. */
  predicate NodeWrites(w: World, e: Event, u: Usage) {
    || (e.Marks? && e.marked in w.due && u == if w.due[e.marked].DoneNote? then DriveReleasing else DriveFailed)
    || (e.RemovalFails? && u.DriveFailed?)
  }

  /** A drive comes to usage u exactly when a reconcile that nobody interfered with moves it there, under its condition in
      the state that it read, or when the node writes u. */
  lemma EnteredExactly(w: World, e: Event, t: World, u: Usage)
    requires Next(w, e, t) && w.site.drive.Some? && !UsageIs(w, u)
    ensures UsageIs(t, u) <==>
              || (Wrote(w, e) && MovesTo(w.seen.value.drive.value, u, ReleasedIn(w.seen.value), GoneIn(w.seen.value), e.leds))
              || NodeWrites(w, e, u)
  {
    if Wrote(w, e) { DecidesMove(w.seen.value, e, u); }
    hide Decided, OnDrive, ReleasedIn, GoneIn, MovesTo;
  }

  /** In words: RELEASING is entered by the controller from IN_USE if the drive it read was SUSPECT or BAD, or by the node's
      mark for a finished release. RELEASED, REMOVING and REMOVED are entered by the controller only, each from the stage
      before it and under its condition in the state that the reconcile read; REMOVED also when an operator forces it. */
  lemma EnteredUnder(w: World, e: Event, t: World, u: Usage)
    requires Next(w, e, t) && UsageIs(t, u) && !UsageIs(w, u)
    ensures u.DriveReleasing? ==>
              || (e.Marks? && e.marked in w.due && w.due[e.marked].DoneNote?)
              || (Wrote(w, e) && w.seen.value.drive.value.usage.DriveInUse?
                  && (w.seen.value.drive.value.health.Suspect? || w.seen.value.drive.value.health.Bad?))
    ensures u.DriveReleased? ==> Wrote(w, e) && w.seen.value.drive.value.usage.DriveReleasing? && ReleasedIn(w.seen.value)
    ensures u.DriveRemoving? ==>
              Wrote(w, e) && w.seen.value.drive.value.usage.DriveReleased? && !w.seen.value.drive.value.action.AddAction?
              && var d := w.seen.value.drive.value; d.isClean || d.fakeAttachDR || d.removalReady
    ensures u.DriveRemoved? ==> Wrote(w, e) && (ForcedBy(w.seen.value.drive.value)
                                  || (w.seen.value.drive.value.usage.DriveRemoving? && GoneIn(w.seen.value)))
  {
    if w.site.drive.None? { GoneStaysGone(w, e, t); }
    EnteredExactly(w, e, t, u);
    hide Next, ReleasedIn, GoneIn;
  }

  lemma DeletedUnder(w: World, e: Event, t: World)
    requires Next(w, e, t) && w.site.drive.Some? && t.site.drive.None?
    ensures e.Acts? && w.seen.Some? && w.seen.value.drive.Some?
    ensures w.seen.value.drive.value.usage.DriveRemoved? && !w.seen.value.drive.value.online && (e.others || e.leds.nodeStop) && e.resynced
  {
    if e.Acts? { DecidedIs(w.seen.value, e); }
    hide Decided, OnDrive, ReleasedIn, GoneIn;
  }

  /** A reconcile nobody interferes with is the look, the write of the drive, and the writes to its volumes: together
      the step proved for the controller. */
  lemma ReconcileIsRun(s: Site, due: map<string, ReleaseNote>, leds: Leds, others: bool, resynced: bool)
    requires s.drive.Some?
    ensures var t := Reconciled(s, leds, others, resynced);
            Run([World(s, None, due), World(s, Some(s), due), World(s.(drive := t.drive), None, due), World(t, None, due)],
                [Looks, Acts(leds, others, resynced), Changes(t)])
  {
    hide DriveRemoval.Next, AllReleased, AllGone, Marked, NotesAfter, PlaceIn;
  }

  // ---- the chain of a deletion ----

  /** A reconcile that looked at step l wrote usage `to` at step k; the drive has kept that usage until state n. */
  ghost predicate Stage(ws: seq<World>, es: seq<Event>, l: nat, k: nat, n: nat, from: Usage, to: Usage) {
    && |ws| == |es| + 1 && l < k < n < |ws| && es[l].Looks? && es[k].Acts?
    && UsageIs(ws[l], from) && forall t :: k < t <= n ==> UsageIs(ws[t], to)
  }

  lemma LastStage(ws: seq<World>, es: seq<Event>, n: nat, u: Usage) returns (l: nat, k: nat)
    requires Run(ws, es) && ws[0].seen.None? && n < |ws| && UsageIs(ws[n], u) && !UsageIs(ws[0], u)
    requires u.DriveReleased? || u.DriveRemoving? || u.DriveRemoved?
    ensures l < |ws| && ws[l].site.drive.Some? && Stage(ws, es, l, k, n, ws[l].site.drive.value.usage, u)
    ensures u.DriveReleased? ==> UsageIs(ws[l], DriveReleasing) && ReleasedIn(ws[l].site)
    ensures u.DriveRemoving? ==> UsageIs(ws[l], DriveReleased)
    ensures u.DriveRemoved? ==> ForcedBy(ws[l].site.drive.value) || (UsageIs(ws[l], DriveRemoving) && GoneIn(ws[l].site))
  {
    k := LastEntry(ws, es, n, u);
    assert Next(ws[k], es[k], ws[k + 1]);
    EnteredUnder(ws[k], es[k], ws[k + 1], u);
    hide Next, ReleasedIn, GoneIn;
    l := SeenBefore(ws, es, k);
  }

  /** The reconciles behind a deletion: i found all volumes released, m found the drive RELEASED, j found all volumes
      gone, and d found the drive absent; each wrote the next stage, which then stood until the next one looked. */
  datatype Chain = Chain(i: nat, released: nat, m: nat, removing: nat, j: nat, removed: nat, d: nat)

  ghost predicate Orderly(ws: seq<World>, es: seq<Event>, c: Chain, n: nat) {
    && Stage(ws, es, c.i, c.released, c.m, DriveReleasing, DriveReleased) && ReleasedIn(ws[c.i].site)
    && Stage(ws, es, c.m, c.removing, c.j, DriveReleased, DriveRemoving)
    && Stage(ws, es, c.j, c.removed, c.d, DriveRemoving, DriveRemoved) && GoneIn(ws[c.j].site)
    && c.d < n && FoundAbsent(ws, c.d)
  }

  ghost predicate FoundAbsent(ws: seq<World>, d: nat) {
    d < |ws| && UsageIs(ws[d], DriveRemoved) && !ws[d].site.drive.value.online
  }

  /** An operator forced the removal of a failed drive. */
  ghost predicate Forced(ws: seq<World>, es: seq<Event>, j: nat, removed: nat, d: nat, n: nat) {
    && j < |ws| && ws[j].site.drive.Some? && ForcedBy(ws[j].site.drive.value)
    && Stage(ws, es, j, removed, d, DriveFailed, DriveRemoved) && d < n && FoundAbsent(ws, d)
  }

  /** The CR of a drive that was in use is deleted only at the end of such a chain: a reconcile found every volume on it
      released, a later one found every volume gone, a last one found the drive absent - unless an operator
      forced a failed drive out. Releases and failures written by the node in between restart the chain, never cut it short. */
  lemma DeletedDriveWasEmptied(ws: seq<World>, es: seq<Event>, n: nat)
    requires Run(ws, es) && ws[0].seen.None? && UsageIs(ws[0], DriveInUse)
    requires n < |es| && ws[n].site.drive.Some? && ws[n + 1].site.drive.None?
    ensures (exists c :: Orderly(ws, es, c, n)) || (exists j, removed, d :: Forced(ws, es, j, removed, d, n))
  {
    assert Next(ws[n], es[n], ws[n + 1]);
    DeletedUnder(ws[n], es[n], ws[n + 1]);
    var d := SeenBefore(ws, es, n);
    hide Next, ReleasedIn, GoneIn;
    var j, removed := LastStage(ws, es, d, DriveRemoved);
    if ForcedBy(ws[j].site.drive.value) {
      assert Forced(ws, es, j, removed, d, n);
    } else {
      var m, removing := LastStage(ws, es, j, DriveRemoving);
      var i, released := LastStage(ws, es, m, DriveReleased);
      assert Orderly(ws, es, Chain(i, released, m, removing, j, removed, d), n);
    }
  }

  // ---- the marks on the drive are earned ----

  /** The annotation of the volume said done when the node settled its release, and the node then marked the drive. */
  ghost predicate Earned(ws: seq<World>, es: seq<Event>, n: nat, id: string, s: nat, t: nat) {
    && |ws| == |es| + 1 && s < t < n < |ws| && es[s] == Settles(id) && es[t] == Marks(id)
    && OnDrive(ws[s].site, id) && NotesAt(ws[s].site.notes, id).release.DoneNote?
  }

  lemma {:induction false} DueWasSettled(ws: seq<World>, es: seq<Event>, n: nat, id: string) returns (s: nat)
    requires Run(ws, es) && ws[0].due == map[] && n < |ws| && id in ws[n].due
    ensures s < n && es[s] == Settles(id) && OnDrive(ws[s].site, id) && NotesAt(ws[s].site.notes, id).release == ws[n].due[id]
  {
    hide AfterActs, OnDrive;
    assert Next(ws[n - 1], es[n - 1], ws[n]);
    if es[n - 1] == Settles(id) {
      s := n - 1;
    } else {
      s := DueWasSettled(ws, es, n - 1, id);
    }
  }

  lemma MarkAppears(w: World, e: Event, t: World, id: string)
    requires Next(w, e, t) && w.site.drive.Some? && t.site.drive.Some?
    requires id in t.site.drive.value.released && id !in w.site.drive.value.released
    ensures e == Marks(id) && id in w.due && w.due[id].DoneNote?
  {
    if e.Acts? { DecidedIs(w.seen.value, e); }
    hide Decided, OnDrive, ReleasedIn, GoneIn;
  }

  /** Every volume marked as released on the drive had its release annotated as done: with DeletedDriveWasEmptied, a
      drive leaves only after every volume found on it was declared released. */
  lemma {:induction false} MarksAreEarned(ws: seq<World>, es: seq<Event>, n: nat, id: string) returns (s: nat, t: nat)
    requires Run(ws, es) && ws[0].due == map[] && n < |ws|
    requires ws[0].site.drive.Some? && ws[0].site.drive.value.released == {}
    requires ws[n].site.drive.Some? && id in ws[n].site.drive.value.released
    ensures Earned(ws, es, n, id, s, t)
  {
    assert Next(ws[n - 1], es[n - 1], ws[n]);
    hide OnDrive;
    if ws[n - 1].site.drive.None? { GoneStaysGone(ws[n - 1], es[n - 1], ws[n]); }
    hide Next;
    if id in ws[n - 1].site.drive.value.released {
      s, t := MarksAreEarned(ws, es, n - 1, id);
    } else {
      MarkAppears(ws[n - 1], es[n - 1], ws[n], id);
      t := n - 1;
      s := DueWasSettled(ws, es, t, id);
    }
  }

  // ---- backwards ----

  /** An operator takes a released or failed drive back. */
  ghost predicate TakenBack(w: World, e: Event) {
    && Wrote(w, e) && w.site.drive.value.action.AddAction?
    && (w.site.drive.value.usage.DriveReleased? || w.site.drive.value.usage.DriveFailed?)
  }

  /** The node writes a finished release to a drive that is past RELEASING. */
  predicate LateRelease(w: World, e: Event) {
    e.Marks? && e.marked in w.due && w.due[e.marked].DoneNote? && w.site.drive.Some? && Rank(w.site.drive.value.usage) > 1
  }

  /** The drive moves backwards exactly in two cases: an operator takes it back, or a release is written late. */
  lemma BackwardsExactly(w: World, e: Event, t: World)
    requires Next(w, e, t) && w.site.drive.Some? && t.site.drive.Some?
    ensures Rank(t.site.drive.value.usage) < Rank(w.site.drive.value.usage) <==> TakenBack(w, e) || LateRelease(w, e)
    ensures LateRelease(w, e) ==> UsageIs(t, DriveReleasing)
    ensures TakenBack(w, e) ==> UsageIs(t, DriveInUse)
  {
    if e.Acts? { DecidedIs(w.seen.value, e); }
    hide Decided, OnDrive, ReleasedIn, GoneIn;
  }

  // ---- a failed drive that is RELEASING again without an operator ----

  const SICK := Drive("d", DriveInUse, true, Bad, false, false, NoAction, {}, false, false)
  const GROUP := LVG("g", "n", ["d"], 100, LVGCreated, ["v", "w"], false)

  function OnGroup(id: string): Volume {
    Volume(id, "n", 10, "g", HDDLVG, true, Published, true, false, ["pod"], None, None)
  }

  /** Two volumes on one drive: the release of v has failed, the one of w is done. */
  function Sick(): Site {
    Site(Some(SICK), map["v" := OnGroup("v"), "w" := OnGroup("w")], map["g" := GROUP],
         map["v" := Notes(false, false, Releasing, FailedNote), "w" := Notes(false, false, Releasing, DoneNote)])
  }

  lemma SickPlace(s: Site)
    requires s.lvgs == map["g" := GROUP] && s.drive.Some? && s.drive.value.name == "d" && s.volumes == Sick().volumes
    ensures OnDrive(s, "v") && OnDrive(s, "w")
  {
    PlaceIs(s.lvgs, "d", "g");
  }

  lemma OneMore(ws: seq<World>, es: seq<Event>, e: Event, t: World) returns (xs: seq<World>, fs: seq<Event>)
    requires Run(ws, es) && Next(ws[|es|], e, t)
    ensures Run(xs, fs) && xs == ws + [t] && fs == es + [e]
  {
    hide Next;
    xs, fs := ws + [t], es + [e];
    forall k | 0 <= k < |fs| ensures Next(xs[k], fs[k], xs[k + 1]) {
      if k < |es| { assert Next(ws[k], es[k], ws[k + 1]); }
    }
  }

  const SICK_RELEASING := SICK.(usage := DriveReleasing)
  const NO_DUE: map<string, ReleaseNote> := map[]

  /** A bad drive in use is RELEASING after a reconcile. */
  lemma GoesBad() returns (ws: seq<World>, es: seq<Event>)
    ensures Run(ws, es) && |ws| == 3 && ws[|es|] == World(Sick().(drive := Some(SICK_RELEASING)), None, NO_DUE)
    ensures NobodyActed(ws)
  {
    var s0, act := Sick(), Acts(Leds(true, true, true), false, true);
    var w0, w1 := World(s0, None, NO_DUE), World(s0, Some(s0), NO_DUE);
    var w2 := World(s0.(drive := Some(SICK_RELEASING)), None, NO_DUE);
    assert Next(w0, Looks, w1) && Next(w1, act, w2) by { hide OnDrive, AllGone, AllReleased, Marked; }
    hide Next;
    ws, es := OneMore([w0], [], Looks, w1);
    ws, es := OneMore(ws, es, act, w2);
  }

  /** The release of one volume is settled and written to the drive. */
  lemma Writes(ws: seq<World>, es: seq<Event>, s: Site, id: string) returns (xs: seq<World>, fs: seq<Event>)
    requires Run(ws, es) && ws[|es|] == World(s, None, NO_DUE) && NobodyActed(ws) && OnDrive(s, id) && Settled(NotesAt(s.notes, id))
    ensures Run(xs, fs) && NobodyActed(xs) && |xs| == |ws| + 2 && ws <= xs
    ensures var n := NotesAt(s.notes, id);
            xs[|fs|] == World(s.(notes := s.notes[id := n.(usage := if n.release.DoneNote? then Released else ReleaseFailed)],
                                 drive := Some(MarkedDrive(s.drive.value, id, n.release))), None, NO_DUE)
  {
    var n := NotesAt(s.notes, id);
    var s' := s.(notes := s.notes[id := n.(usage := if n.release.DoneNote? then Released else ReleaseFailed)]);
    var w, t := World(s', None, NO_DUE[id := n.release]), World(s'.(drive := Some(MarkedDrive(s.drive.value, id, n.release))), None, NO_DUE);
    assert NO_DUE[id := n.release] - {id} == NO_DUE;
    assert ws[|es|] in ws;
    hide OnDrive;
    assert Next(ws[|es|], Settles(id), w) && Next(w, Marks(id), t);
    hide Next;
    xs, fs := OneMore(ws, es, Settles(id), w);
    xs, fs := OneMore(xs, fs, Marks(id), t);
  }

  ghost predicate NobodyActed(ws: seq<World>) {
    forall w :: w in ws ==> w.site.drive.Some? && w.site.drive.value.action.NoAction?
  }

  /** The drive goes bad and is RELEASING; the failed release makes it FAILED, and the finished one makes it RELEASING
      again. Nobody has set an action annotation. */
  lemma FailureIsForgotten()
    ensures exists ws, es, i, j :: Forgets(ws, es, i, j)
  {
    var ws, es := GoesBad();
    var s1 := ws[|es|].site;
    assert "v" != "w";
    SickPlace(s1);
    var xs, fs := Writes(ws, es, s1, "v");
    var s3 := xs[|fs|].site;
    SickPlace(s3);
    var ys, gs := Writes(xs, fs, s3, "w");
    assert ys[4] == xs[4] && xs[|fs|] == xs[4];
    assert Forgets(ys, gs, 4, 6);
  }

  /** A drive that was FAILED is RELEASING again in a run without operator actions. */
  ghost predicate Forgets(ws: seq<World>, es: seq<Event>, i: nat, j: nat) {
    && Run(ws, es) && i < j < |ws| && UsageIs(ws[i], DriveFailed) && UsageIs(ws[j], DriveReleasing)
    && NobodyActed(ws)
  }
}
