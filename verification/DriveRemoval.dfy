// pkg/crcontrollers/drive/drivecontroller.go: taking a drive out of the system step by step.

module DriveRemoval {
  import opened Types
  import opened Stores
  import opened CRHelper

  /** The action annotation an operator may set on a drive. */
  datatype Action = NoAction | AddAction | RemoveAction

  /** A Drive CR. `released` are the volumes its annotations mark as released, `removalReady` is the
      removal annotation, `fakeAttachDR` the note that all volumes on it are fake-attached. */
  datatype Drive = Drive(name: string, usage: Usage, online: bool, health: Health, isClean: bool, tainted: bool,
                         action: Action, released: set<string>, removalReady: bool, fakeAttachDR: bool)

  /** How far the release of a volume is, and what the release annotation says about it. */
  datatype VolumeUsage = InUse | Releasing | Released | ReleaseFailed
  datatype ReleaseNote = NoNote | DoneNote | FailedNote

  /** What matters here of a volume beside its status: its usage and its annotations. */
  datatype Notes = Notes(fakeAttached: bool, removalReady: bool, usage: VolumeUsage, release: ReleaseNote)

  function NotesAt(notes: map<string, Notes>, id: string): Notes {
    if id in notes then notes[id] else Notes(false, false, InUse, NoNote)
  }

  function NotesOf(notes: map<string, Notes>, v: Volume): Notes {
    NotesAt(notes, v.id)
  }

  datatype Verdict = Leave | Write | Delete | WaitForIt | Fail

  /** What the drive manager answers: drive LED lit (or not there), node LED started, node LED stopped. */
  datatype Leds = Leds(drive: bool, nodeStart: bool, nodeStop: bool)

  /** A whole-drive volume is alone at its place. */
  ghost predicate AloneOnDrive(volumes: map<string, Volume>) {
    && (forall i :: i in volumes ==> volumes[i].id == i)
    && forall i, j :: i in volumes && j in volumes && volumes[i].location == volumes[j].location && !volumes[i].onLVM ==> i == j
  }

  /** handleDriveStatus: the volumes at the place are missing exactly while the drive is offline. */
  function Marked(volumes: map<string, Volume>, at: string, online: bool): map<string, Volume> {
    map i | i in volumes :: if volumes[i].location == at then volumes[i].(missing := !online) else volumes[i]
  }

  /** handleDriveLableUpdate: the AC at the place carries the drive's taint. */
  function Tainted(acs: map<string, AC>, a: string, tainted: bool): map<string, AC>
    requires a in acs
  {
    acs[a := acs[a].(tainted := tainted)]
  }

  ghost predicate AtPlace(volumes: map<string, Volume>, at: string, i: string) {
    i in volumes && volumes[i].location == at
  }

  /** Every volume on the drive is marked as released on the drive. */
  ghost predicate AllReleased(volumes: map<string, Volume>, at: string, d: Drive) {
    forall i :: AtPlace(volumes, at, i) ==> i in d.released
  }

  /** Every volume on the drive is removed or fake-attached; volumes of an LVG must be fake-attached. */
  ghost predicate AllGone(volumes: map<string, Volume>, lvgs: map<string, LVG>, notes: map<string, Notes>, at: string) {
    forall i :: AtPlace(volumes, at, i) ==>
      NotesOf(notes, volumes[i]).fakeAttached || (volumes[i].status.Removed? && !(at in lvgs && volumes[i].onLVM))
  }

  lemma {:induction false} FoundAll(volumes: map<string, Volume>, list: seq<Volume>, at: string)
    requires Lists(list, volumes) && AloneOnDrive(volumes)
    ensures forall v :: v in VolumesAt(list, at) <==> AtPlace(volumes, at, v.id) && volumes[v.id] == v
  {
    ListedExactly(list, volumes);
    VolumesAtAre(list, at);
    if exists v :: v in list && v.location == at && !v.onLVM {
      var v :| v in list && v.location == at && !v.onLVM;
      assert forall w :: w in list && w.location == at ==> w == v;
      assert VolumesAt(list, at) != [];
      var w := VolumesAt(list, at)[0];
      assert w in VolumesAt(list, at);
    }
  }

  // ---- the usage machine ----

  /** What one reconcile makes of a drive, None when its CR is deleted. `released` and `gone` say whether
      AllReleased and AllGone hold, `others` whether another drive is REMOVED too, `resynced` whether the
      drive's storage group could be told. */
  function Next(d: Drive, released: bool, gone: bool, leds: Leds, others: bool, resynced: bool): Option<Drive> {
    match d.usage
    case DriveInUse => Some(if d.health.Suspect? || d.health.Bad? then d.(usage := DriveReleasing) else d)
    case DriveReleasing => Some(if released then d.(usage := DriveReleased) else d)
    case DriveReleased =>
      Some(if d.action.AddAction? then d.(usage := DriveInUse, action := NoAction)
           else if d.isClean || d.fakeAttachDR || d.removalReady then d.(usage := DriveRemoving) else d)
    case DriveRemoving =>
      Some(if !gone || (!d.online && !leds.nodeStart) then d
           else d.(usage := if d.online && !leds.drive then DriveFailed else DriveRemoved))
    case DriveRemoved => if !d.online && (others || leds.nodeStop) && resynced then None else Some(d)
    case DriveFailed =>
      Some(if d.action.AddAction? then d.(usage := DriveInUse, action := NoAction)
           else if d.action.RemoveAction? then d.(usage := DriveRemoved, action := NoAction) else d)
  }

  /** A released drive may start to be removed: it is clean, or everything on it is fake-attached, or an operator says so. */
  predicate Removable(d: Drive) {
    d.isClean || d.fakeAttachDR || d.removalReady
  }

  /** When one reconcile takes a drive to another usage. */
  predicate MovesTo(d: Drive, to: Usage, released: bool, gone: bool, leds: Leds) {
    match to
    case DriveInUse => d.action.AddAction? && (d.usage.DriveReleased? || d.usage.DriveFailed?)
    case DriveReleasing => d.usage.DriveInUse? && (d.health.Suspect? || d.health.Bad?)
    case DriveReleased => d.usage.DriveReleasing? && released
    case DriveRemoving => d.usage.DriveReleased? && !d.action.AddAction? && Removable(d)
    case DriveRemoved =>
      || (d.usage.DriveRemoving? && gone && (if d.online then leds.drive else leds.nodeStart))
      || (d.usage.DriveFailed? && d.action.RemoveAction?)
    case DriveFailed => d.usage.DriveRemoving? && gone && d.online && !leds.drive
  }

  /** A reconcile changes the usage of a drive exactly so. */
  lemma MovesExactly(d: Drive, released: bool, gone: bool, leds: Leds, others: bool, resynced: bool, to: Usage)
    requires to != d.usage
    ensures var n := Next(d, released, gone, leds, others, resynced);
            n.Some? && n.value.usage == to <==> MovesTo(d, to, released, gone, leds)
  {
  }

  /** It deletes the CR exactly of a removed drive that is absent, clears the annotation of the operator it has obeyed, and
      changes nothing else. */
  lemma RestStays(d: Drive, released: bool, gone: bool, leds: Leds, others: bool, resynced: bool)
    ensures var n := Next(d, released, gone, leds, others, resynced);
            && (n.None? <==> d.usage.DriveRemoved? && !d.online && (others || leds.nodeStop) && resynced)
            && (n.Some? ==>
                  n.value == d.(usage := n.value.usage,
                                action := if n.value.usage != d.usage && (d.usage.DriveFailed? || (d.usage.DriveReleased? && d.action.AddAction?))
                                          then NoAction else d.action))
  {
  }

  // ---- one reconcile in full ----

  /** A drive with everything its removal depends on. */
  datatype Site = Site(drive: Option<Drive>, volumes: map<string, Volume>, lvgs: map<string, LVG>, notes: map<string, Notes>)

  ghost function PlaceIn(s: Site): string
    requires s.drive.Some?
  {
    PlaceOf(s.lvgs, s.drive.value.name)
  }

  /** Every volume on a drive that starts to be removed is marked for removal. */
  function Readied(notes: map<string, Notes>, volumes: map<string, Volume>, at: string): map<string, Notes> {
    map i | i in notes.Keys + volumes.Keys && (i in notes || volumes[i].location == at) ::
      if i in volumes && volumes[i].location == at then NotesAt(notes, i).(removalReady := true) else NotesAt(notes, i)
  }

  function Renewed(n: Notes): Notes {
    if n.release.FailedNote? then n.(usage := InUse, release := NoNote) else n
  }

  /** When an operator takes a failed drive back, failed releases on it are forgotten. */
  function Forgotten(notes: map<string, Notes>, volumes: map<string, Volume>, at: string): map<string, Notes> {
    map i | i in notes :: if i in volumes && volumes[i].location == at then Renewed(notes[i]) else notes[i]
  }

  function NotesAfter(d: Drive, notes: map<string, Notes>, volumes: map<string, Volume>, at: string): map<string, Notes> {
    if d.usage.DriveReleased? && !d.action.AddAction? && (d.isClean || d.fakeAttachDR || d.removalReady)
    then Readied(notes, volumes, at)
    else if d.usage.DriveFailed? && d.action.AddAction? then Forgotten(notes, volumes, at)
    else notes
  }

  /** What a reconcile of the drive makes of it all, with its conditions evaluated in the state it finds. */
  ghost function Reconciled(s: Site, leds: Leds, others: bool, resynced: bool): Site
    requires s.drive.Some?
  {
    var d, at := s.drive.value, PlaceIn(s);
    Site(Next(d, AllReleased(s.volumes, at, d), AllGone(s.volumes, s.lvgs, s.notes, at), leds, others, resynced),
         Marked(s.volumes, at, d.online), s.lvgs, NotesAfter(d, s.notes, s.volumes, at))
  }

  /** Marking volumes as missing changes neither condition. */
  lemma MarkedIsAsBefore(volumes: map<string, Volume>, lvgs: map<string, LVG>, notes: map<string, Notes>, at: string, d: Drive)
    requires forall i :: i in volumes ==> volumes[i].id == i
    ensures var marked := Marked(volumes, at, d.online);
            && (AllReleased(marked, at, d) <==> AllReleased(volumes, at, d))
            && (AllGone(marked, lvgs, notes, at) <==> AllGone(volumes, lvgs, notes, at))
            && NotesAfter(d, notes, marked, at) == NotesAfter(d, notes, volumes, at)
  {
    var marked := Marked(volumes, at, d.online);
    assert forall i :: AtPlace(marked, at, i) <==> AtPlace(volumes, at, i);
    MarkedNotes(volumes, notes, at, d);
    hide NotesAfter;
  }

  lemma MarkedNotes(volumes: map<string, Volume>, notes: map<string, Notes>, at: string, d: Drive)
    ensures NotesAfter(d, notes, Marked(volumes, at, d.online), at) == NotesAfter(d, notes, volumes, at)
  {
    SamePlaces(volumes, Marked(volumes, at, d.online), notes, at);
    hide Marked, Readied, Forgotten;
  }

  lemma SamePlaces(x: map<string, Volume>, y: map<string, Volume>, notes: map<string, Notes>, at: string)
    requires y.Keys == x.Keys && forall i :: i in x ==> y[i].location == x[i].location
    ensures Readied(notes, y, at) == Readied(notes, x, at) && Forgotten(notes, y, at) == Forgotten(notes, x, at)
  {
    assert forall i :: i in x <==> i in y;
  }

  /** What a reconcile does to the volumes: those on the drive are missing while it is offline, the others stay as they are. */
  lemma VolumesFollow(s: Site, leds: Leds, others: bool, resynced: bool, i: string)
    requires s.drive.Some? && i in s.volumes
    ensures var t := Reconciled(s, leds, others, resynced);
            && t.volumes.Keys == s.volumes.Keys && t.lvgs == s.lvgs
            && t.volumes[i] == if s.volumes[i].location == PlaceOf(s.lvgs, s.drive.value.name)
                               then s.volumes[i].(missing := !s.drive.value.online) else s.volumes[i]
  {
  }

  /** And to their annotations: all volumes on a drive that starts to be removed are marked, the failed releases on a failed
      drive that is taken back are forgotten, and nothing else is written. */
  lemma NotesFollow(s: Site, leds: Leds, others: bool, resynced: bool, i: string)
    requires s.drive.Some?
    ensures var d, n, m := s.drive.value, NotesAt(s.notes, i), NotesAt(Reconciled(s, leds, others, resynced).notes, i);
            var on := i in s.volumes && s.volumes[i].location == PlaceOf(s.lvgs, d.name);
            m == if on && d.usage.DriveReleased? && !d.action.AddAction? && Removable(d) then n.(removalReady := true)
                 else if on && i in s.notes && d.usage.DriveFailed? && d.action.AddAction? && n.release.FailedNote?
                 then n.(usage := InUse, release := NoNote)
                 else n
  {
  }

  // ---- the AC of the drive ----

  ghost predicate NoACAt(acs: map<string, AC>, location: string) {
    forall a :: a in acs ==> acs[a].location != location
  }

  /** The AC at the place, if there is one, carries the taint of the drive. */
  ghost predicate TaintFollows(x: map<string, AC>, y: map<string, AC>, at: string, tainted: bool) {
    if NoACAt(x, at) then y == x else exists a :: a in x && x[a].location == at && y == Tainted(x, a, tainted)
  }

  /** The AC at the drive itself, if there is one, goes with the drive. */
  ghost predicate ACGoes(x: map<string, AC>, y: map<string, AC>, drive: string, goes: bool) {
    if !goes || NoACAt(x, drive) then y == x else exists a :: a in x && x[a].location == drive && y == x - {a}
  }

  ghost predicate ACsFollow(x: map<string, AC>, y: map<string, AC>, at: string, d: Drive, goes: bool) {
    exists m :: TaintFollows(x, m, at, d.tainted) && ACGoes(m, y, d.name, goes)
  }

  /** The ACs after a reconcile: the one at the place of the drive has its taint, all others are as before, and only an AC
      at the drive itself may be gone. */
  lemma ACsFollowMeans(x: map<string, AC>, y: map<string, AC>, at: string, d: Drive, goes: bool, a: string)
    requires ACsFollow(x, y, at, d, goes) && a in x
    requires forall b, c :: b in x && c in x && x[b].location == x[c].location ==> b == c
    ensures a in y <==> !(goes && x[a].location == d.name)
    ensures a in y ==> y[a] == if x[a].location == at then x[a].(tainted := d.tainted) else x[a]
  {
    var m :| TaintFollows(x, m, at, d.tainted) && ACGoes(m, y, d.name, goes);
    if !NoACAt(x, at) {
      var b :| b in x && x[b].location == at && m == Tainted(x, b, d.tainted);
    }
    assert m.Keys == x.Keys && forall b :: b in x ==> m[b].location == x[b].location;
    if goes && !NoACAt(m, d.name) {
      var b :| b in m && m[b].location == d.name && y == m - {b};
    }
  }

  // ---- the controller ----

  class Controller {
    const client: Cluster
    var drives: map<string, Drive>
    var notes: map<string, Notes>

    constructor (client: Cluster, drives: map<string, Drive>, notes: map<string, Notes>)
      ensures this.client == client && this.drives == drives && this.notes == notes
    {
      this.client, this.drives, this.notes := client, drives, notes;
    }

    ghost predicate Valid()
      reads this, client
    {
      && OneLVGEach(client.lvgs) && AloneOnDrive(client.volumes)
      && (forall d :: d in drives ==> drives[d].name == d) && forall a :: a in client.acs ==> client.acs[a].name == a
    }

    ghost predicate AnotherRemoved(drive: string)
      reads this`drives
    {
      exists d :: d in drives && d != drive && drives[d].usage.DriveRemoved?
    }

    method GetVolumes(drive: string) returns (found: seq<Volume>)
      requires Valid()
      ensures forall v :: v in found <==> AtPlace(client.volumes, PlaceOf(client.lvgs, drive), v.id) && client.volumes[v.id] == v
    {
      found := GetVolumesByLocation(client.volumes, client.lvgs, drive);
      ghost var list :| Lists(list, client.volumes) && found == VolumesAt(list, PlaceOf(client.lvgs, drive));
      FoundAll(client.volumes, list, PlaceOf(client.lvgs, drive));
    }

    /** drivecontroller.go:316-323. */
    method CheckAllVolsWithoutFakeAttachRemoved(volumes: seq<Volume>) returns (ok: bool)
      ensures ok <==> forall v :: v in volumes ==> v.status.Removed? || NotesOf(notes, v).fakeAttached
    {
      for i := 0 to |volumes|
        invariant forall v :: v in volumes[..i] ==> v.status.Removed? || NotesOf(notes, v).fakeAttached
      {
        if volumes[i].status != Removed && !NotesOf(notes, volumes[i]).fakeAttached { return false; }
      }
      return true;
    }

    /** drivecontroller.go:333-340. */
    method CheckAllLVGVolsWithoutFakeAttachRemoved(lvg: string, volumes: seq<Volume>) returns (ok: bool)
      ensures ok <==> forall v :: v in volumes && v.onLVM && v.location == lvg ==> NotesOf(notes, v).fakeAttached
    {
      for i := 0 to |volumes|
        invariant forall v :: v in volumes[..i] && v.onLVM && v.location == lvg ==> NotesOf(notes, v).fakeAttached
      {
        if volumes[i].onLVM && volumes[i].location == lvg && !NotesOf(notes, volumes[i]).fakeAttached { return false; }
      }
      return true;
    }

    /** drivecontroller.go:382-406. */
    method HandleDriveUsageReleasing(drive: Drive) returns (d: Drive, verdict: Verdict)
      requires Valid() && drive.usage.DriveReleasing?
      ensures d == if AllReleased(client.volumes, PlaceOf(client.lvgs, drive.name), drive) then drive.(usage := DriveReleased) else drive
      ensures verdict == if AllReleased(client.volumes, PlaceOf(client.lvgs, drive.name), drive) then Write else Leave
    {
      var volumes := GetVolumes(drive.name);
      ghost var at := PlaceOf(client.lvgs, drive.name);
      for i := 0 to |volumes|
        invariant forall j :: 0 <= j < i ==> volumes[j].id in drive.released
      {
        if volumes[i].id !in drive.released {
          assert volumes[i] in volumes;
          return drive, Leave;
        }
      }
      forall i | AtPlace(client.volumes, at, i) ensures i in drive.released {
        assert client.volumes[i] in volumes;
      }
      return drive.(usage := DriveReleased), Write;
    }

    /** drivecontroller.go:408-445. */
    method HandleDriveUsageRemoving(drive: Drive, leds: Leds) returns (d: Drive, verdict: Verdict)
      requires Valid() && drive.usage.DriveRemoving? && drive.name !in client.lvgs
      ensures var gone := AllGone(client.volumes, client.lvgs, notes, PlaceOf(client.lvgs, drive.name));
              && (verdict == if !gone then WaitForIt else if !drive.online && !leds.nodeStart then Fail else Write)
              && (verdict.Write? ==> Next(drive, false, gone, leds, false, false) == Some(d))
              && (verdict.WaitForIt? ==> d == drive)
    {
      var volumes := GetVolumes(drive.name);
      ghost var at := PlaceOf(client.lvgs, drive.name);
      var removed := CheckAllVolsWithoutFakeAttachRemoved(volumes);
      if !removed {
        var v :| v in volumes && !v.status.Removed? && !NotesOf(notes, v).fakeAttached;
        assert AtPlace(client.volumes, at, v.id);
        return drive, WaitForIt;
      }
      var lvg := GetLVGByDrive(client.lvgs, drive.name);
      if lvg.Some? {
        PlaceIs(client.lvgs, drive.name, lvg.value.name);
        var clear := CheckAllLVGVolsWithoutFakeAttachRemoved(lvg.value.name, volumes);
        if !clear {
          var v :| v in volumes && v.onLVM && !NotesOf(notes, v).fakeAttached;
          assert AtPlace(client.volumes, at, v.id);
          return drive, WaitForIt;
        }
      }
      assert AllGone(client.volumes, client.lvgs, notes, at) by {
        forall i | AtPlace(client.volumes, at, i)
          ensures NotesOf(notes, client.volumes[i]).fakeAttached
                  || (client.volumes[i].status.Removed? && !(at in client.lvgs && client.volumes[i].onLVM))
        {
          assert client.volumes[i] in volumes;
          if lvg.None? { PlaceIs(client.lvgs, drive.name, drive.name); }
        }
      }
      d := drive.(usage := DriveRemoved);
      if drive.online {
        if !leds.drive { d := d.(usage := DriveFailed); }
      } else {
        if !leds.nodeStart { return d, Fail; }
      }
      return d, Write;
    }

    /** drivecontroller.go:482-506. */
    method StopLocateNodeLED(drive: Drive, nodeStop: bool) returns (ok: bool)
      ensures ok <==> nodeStop || AnotherRemoved(drive.name)
    {
      var todo := drives.Keys;
      while todo != {}
        invariant todo <= drives.Keys
        invariant forall d :: d in drives && d !in todo && d != drive.name ==> !drives[d].usage.DriveRemoved?
        decreases todo
      {
        var d :| d in todo;
        todo := todo - {d};
        if d == drive.name { continue; }
        if drives[d].usage == DriveRemoved { return true; }
      }
      return nodeStop;
    }

    /** drivecontroller.go:447-463 with removeRelatedAC, 508-525. `resynced` is the outcome of telling the
        storage group. */
    method HandleDriveUsageRemoved(drive: Drive, leds: Leds, resynced: bool) returns (verdict: Verdict)
      requires Valid() && drive.usage.DriveRemoved?
      modifies client`acs
      ensures Valid()
      ensures verdict.Delete? <==> !drive.online && resynced && (leds.nodeStop || AnotherRemoved(drive.name))
      ensures !verdict.Delete? ==> verdict.Leave? || verdict.Fail?
      ensures verdict.Leave? ==> client.acs == old(client.acs)
      ensures ACGoes(old(client.acs), client.acs, drive.name, !drive.online && (leds.nodeStop || AnotherRemoved(drive.name)))
    {
      if drive.online { return Leave; }
      var stopped := StopLocateNodeLED(drive, leds.nodeStop);
      if !stopped { return Fail; }
      var ac := GetACByLocation(client.acs, drive.name);
      if ac.Some? { client.acs := client.acs - {ac.value.name}; }
      if !resynced { return Fail; }
      return Delete;
    }

    /** drivecontroller.go:562-609. */
    method HandleDriveLabelUpdate(drive: Drive)
      requires Valid()
      modifies client`acs
      ensures Valid()
      ensures TaintFollows(old(client.acs), client.acs, PlaceOf(client.lvgs, drive.name), drive.tainted)
    {
      var location := drive.name;
      var lvg := GetLVGByDrive(client.lvgs, drive.name);
      if lvg.Some? { location := lvg.value.name; }
      PlaceIs(client.lvgs, drive.name, location);
      var ac := GetACByLocation(client.acs, location);
      if ac.None? { return; }
      var updated := ac.value.(tainted := drive.tainted);
      client.acs := client.acs[updated.name := updated];
      assert client.acs == Tainted(old(client.acs), ac.value.name, drive.tainted);
    }

    /** drivecontroller.go:279-303. */
    method HandleDriveStatus(drive: Drive)
      requires Valid()
      modifies client`volumes
      ensures Valid() && client.volumes == Marked(old(client.volumes), PlaceOf(client.lvgs, drive.name), drive.online)
    {
      hide OneLVGEach, AloneOnDrive, MarkedIds, Marked;
      var volumes := GetVolumes(drive.name);
      ghost var was, done: set<string> := client.volumes, {};
      MarkNone(was, drive.online);
      for i := 0 to |volumes|
        invariant done == set j | 0 <= j < i :: volumes[j].id
        invariant client.volumes == MarkedIds(was, done, drive.online)
      {
        var volume := volumes[i];
        assert volume in volumes;
        MarkOne(was, done, volume, drive.online);
        done := done + {volume.id};
        if !drive.online {
          client.volumes := client.volumes[volume.id := volume.(missing := true)];
        } else if volume.missing {
          client.volumes := client.volumes[volume.id := volume.(missing := false)];
        }
      }
      MarkAll(was, volumes, done, PlaceOf(client.lvgs, drive.name), drive.online);
    }

    /** The volume loop of drivecontroller.go:202-210. */
    method MarkVolumesReady(volumes: seq<Volume>)
      modifies this`notes
      ensures forall v :: v in volumes ==> NotesOf(notes, v) == NotesOf(old(notes), v).(removalReady := true)
      ensures forall i :: (forall v :: v in volumes ==> v.id != i) ==> (i in notes <==> i in old(notes)) && (i in notes ==> notes[i] == old(notes)[i])
    {
      for k := 0 to |volumes|
        invariant forall v :: v in volumes[..k] ==> NotesOf(notes, v) == NotesOf(old(notes), v).(removalReady := true)
        invariant forall i :: (forall v :: v in volumes[..k] ==> v.id != i) ==>
                    (i in notes <==> i in old(notes)) && (i in notes ==> notes[i] == old(notes)[i])
      {
        var v := volumes[k];
        assert volumes[..k + 1] == volumes[..k] + [v];
        if !NotesOf(notes, v).removalReady {
          notes := notes[v.id := NotesOf(notes, v).(removalReady := true)];
        }
      }
      assert volumes[..|volumes|] == volumes;
    }

    /** changeVolumeUsageAfterActionAnnotation, drivecontroller.go:256-277. */
    method ForgetFailedReleases(volumes: seq<Volume>)
      modifies this`notes
      ensures forall v :: v in volumes ==> NotesOf(notes, v) == Renewed(NotesOf(old(notes), v))
      ensures forall i :: i in notes <==> i in old(notes)
      ensures forall i :: i in notes && (forall v :: v in volumes ==> v.id != i) ==> notes[i] == old(notes)[i]
    {
      for k := 0 to |volumes|
        invariant forall v :: v in volumes[..k] ==> NotesOf(notes, v) == Renewed(NotesOf(old(notes), v))
        invariant forall i :: i in notes <==> i in old(notes)
        invariant forall i :: i in notes && (forall w :: w in volumes[..k] ==> w.id != i) ==> notes[i] == old(notes)[i]
      {
        var v := volumes[k];
        assert volumes[..k + 1] == volumes[..k] + [v];
        if NotesOf(notes, v).release == FailedNote {
          var usage := NotesOf(notes, v).(usage := InUse);
          notes := notes[v.id := usage.(release := NoNote)];
        }
      }
      assert volumes[..|volumes|] == volumes;
    }

    /** The stages that need no look at LEDs, drivecontroller.go:170-174, 178-210 and 215-228. */
    method HandleOtherUsage(drive: Drive) returns (d: Drive, verdict: Verdict)
      requires Valid() && (drive.usage.DriveInUse? || drive.usage.DriveReleased? || drive.usage.DriveFailed?)
      modifies this`notes
      ensures Valid()
      ensures forall r, g, leds, o, s :: Next(drive, r, g, leds, o, s) == Some(d)
      ensures verdict == if d == drive then Leave else Write
      ensures drive.usage.DriveInUse? ==>
                d == if drive.health.Suspect? || drive.health.Bad? then drive.(usage := DriveReleasing) else drive
      ensures notes == NotesAfter(drive, old(notes), client.volumes, PlaceOf(client.lvgs, drive.name))
    {
      ghost var at := PlaceOf(client.lvgs, drive.name);
      d := drive;
      match drive.usage {
        case DriveInUse =>
          if drive.health == Suspect || drive.health == Bad { return drive.(usage := DriveReleasing), Write; }
        case DriveReleased =>
          if drive.action == AddAction { return drive.(usage := DriveInUse, action := NoAction), Write; }
          var fakeAttachDR := !drive.isClean && drive.fakeAttachDR;
          if !(drive.isClean || fakeAttachDR) {
            if !drive.removalReady { return drive, Leave; }
          }
          d := drive.(usage := DriveRemoving);
          var volumes := GetVolumes(drive.name);
          MarkVolumesReady(volumes);
          AllReadied(old(notes), notes, client.volumes, volumes, at);
          return d, Write;
        case DriveFailed =>
          if drive.action == AddAction {
            var volumes := GetVolumes(drive.name);
            ForgetFailedReleases(volumes);
            AllForgotten(old(notes), notes, client.volumes, volumes, at);
            return drive.(usage := DriveInUse, action := NoAction), Write;
          }
          if drive.action == RemoveAction { return drive.(usage := DriveRemoved, action := NoAction), Write; }
        case _ =>
      }
      return drive, Leave;
    }

    /** The usage switch of handleDriveUpdate, drivecontroller.go:168-233. */
    method HandleUsage(drive: Drive, leds: Leds, resynced: bool) returns (d: Drive, verdict: Verdict)
      requires Valid() && drive.name !in client.lvgs
      modifies this`notes, client`acs
      ensures var at := PlaceOf(client.lvgs, drive.name);
              var after := Next(drive, AllReleased(client.volumes, at, drive), AllGone(client.volumes, client.lvgs, old(notes), at), leds,
                                AnotherRemoved(drive.name), resynced);
              && notes == NotesAfter(drive, old(notes), client.volumes, at)
              && after == (if verdict.Delete? then None else if verdict.Write? then Some(d) else Some(drive))
      ensures ACGoes(old(client.acs), client.acs, drive.name,
                     drive.usage.DriveRemoved? && !drive.online && (leds.nodeStop || AnotherRemoved(drive.name)))
    {
      hide OneLVGEach, AloneOnDrive, AllReleased, AllGone, AtPlace, PlaceOf, NotesAfter, ACGoes, NoACAt;
      OnlyTwoStagesAnnotate(drive, notes, client.volumes, PlaceOf(client.lvgs, drive.name));
      KeepsAC(client.acs, drive.name);
      verdict, d := Leave, drive;
      match drive.usage {
        case DriveReleasing => d, verdict := HandleDriveUsageReleasing(drive);
        case DriveRemoving => d, verdict := HandleDriveUsageRemoving(drive, leds);
        case DriveRemoved => verdict := HandleDriveUsageRemoved(drive, leds, resynced);
        case _ => d, verdict := HandleOtherUsage(drive);
      }
    }

    /** handleDriveUpdate, drivecontroller.go:154-234. */
    method HandleDriveUpdate(drive: Drive, leds: Leds, resynced: bool) returns (d: Drive, verdict: Verdict)
      requires Valid() && drive.name !in client.lvgs
      modifies this`notes, client`acs, client`volumes
      ensures var at := PlaceOf(client.lvgs, drive.name);
              var after := Next(drive, AllReleased(old(client.volumes), at, drive),
                                AllGone(old(client.volumes), client.lvgs, old(notes), at), leds, AnotherRemoved(drive.name), resynced);
              && client.volumes == Marked(old(client.volumes), at, drive.online)
              && notes == NotesAfter(drive, old(notes), old(client.volumes), at)
              && after == (if verdict.Delete? then None else if verdict.Write? then Some(d) else Some(drive))
      ensures ACsFollow(old(client.acs), client.acs, PlaceOf(client.lvgs, drive.name), drive,
                        drive.usage.DriveRemoved? && !drive.online && (leds.nodeStop || AnotherRemoved(drive.name)))
    {
      hide OneLVGEach, AloneOnDrive, Marked, AllReleased, AllGone, AtPlace, PlaceOf, NotesAfter, TaintFollows, ACGoes, Next;
      assert forall i :: i in client.volumes ==> client.volumes[i].id == i by { HaveTheirIds(client.volumes); }
      MarkedIsAsBefore(client.volumes, client.lvgs, notes, PlaceOf(client.lvgs, drive.name), drive);
      HandleDriveLabelUpdate(drive);
      HandleDriveStatus(drive);
      ghost var tainted := client.acs;
      d, verdict := HandleUsage(drive, leds, resynced);
      assert TaintFollows(old(client.acs), tainted, PlaceOf(client.lvgs, drive.name), drive.tainted);
    }

    /** What the machine is about, for one drive. */
    ghost function SiteOf(name: string): Site
      reads this, client
    {
      Site(if name in drives then Some(drives[name]) else None, client.volumes, client.lvgs, notes)
    }

    /** Reconcile, drivecontroller.go:109-152: the drive, its volumes and their annotations make exactly the step of the
        machine, its ACs follow, and no other drive changes. */
    method Reconcile(name: string, leds: Leds, resynced: bool)
      requires Valid() && name in drives && name !in client.lvgs
      modifies this, client`acs, client`volumes
      ensures SiteOf(name) == Reconciled(old(SiteOf(name)), leds, old(AnotherRemoved(name)), resynced)
      ensures forall d :: d != name ==> (d in drives <==> d in old(drives)) && (d in drives ==> drives[d] == old(drives)[d])
      ensures var d := old(drives)[name];
              ACsFollow(old(client.acs), client.acs, PlaceOf(client.lvgs, name), d,
                        d.usage.DriveRemoved? && !d.online && (leds.nodeStop || old(AnotherRemoved(name))))
    {
      hide OneLVGEach, AloneOnDrive, Marked, AllReleased, AllGone, PlaceOf, NotesAfter, ACsFollow, Next;
      var drive := drives[name];
      var d, verdict := HandleDriveUpdate(drive, leds, resynced);
      if verdict == Write {
        drives := drives[name := d];
      } else if verdict == Delete {
        drives := drives - {name};
      }
    }
  }

  lemma HaveTheirIds(volumes: map<string, Volume>)
    requires AloneOnDrive(volumes)
    ensures forall i :: i in volumes ==> volumes[i].id == i
  {
  }

  lemma KeepsAC(acs: map<string, AC>, drive: string)
    ensures ACGoes(acs, acs, drive, false)
  {
  }

  lemma OnlyTwoStagesAnnotate(d: Drive, notes: map<string, Notes>, volumes: map<string, Volume>, at: string)
    ensures !d.usage.DriveReleased? && !d.usage.DriveFailed? ==> NotesAfter(d, notes, volumes, at) == notes
  {
  }

  lemma AllReadied(before: map<string, Notes>, after: map<string, Notes>, volumes: map<string, Volume>, found: seq<Volume>, at: string)
    requires forall i :: i in volumes ==> volumes[i].id == i
    requires forall v :: v in found <==> AtPlace(volumes, at, v.id) && volumes[v.id] == v
    requires forall v :: v in found ==> NotesOf(after, v) == NotesOf(before, v).(removalReady := true)
    requires forall i :: (forall v :: v in found ==> v.id != i) ==> (i in after <==> i in before) && (i in after ==> after[i] == before[i])
    ensures after == Readied(before, volumes, at)
  {
    forall i ensures (i in after <==> i in Readied(before, volumes, at)) && (i in after ==> after[i] == Readied(before, volumes, at)[i]) {
      if AtPlace(volumes, at, i) {
        assert volumes[i] in found;
        assert NotesOf(after, volumes[i]) == NotesAt(after, i);
      } else {
        assert forall v :: v in found ==> v.id != i;
      }
    }
  }

  lemma AllForgotten(before: map<string, Notes>, after: map<string, Notes>, volumes: map<string, Volume>, found: seq<Volume>, at: string)
    requires forall i :: i in volumes ==> volumes[i].id == i
    requires forall v :: v in found <==> AtPlace(volumes, at, v.id) && volumes[v.id] == v
    requires forall v :: v in found ==> NotesOf(after, v) == Renewed(NotesOf(before, v))
    requires forall i :: i in after <==> i in before
    requires forall i :: i in after && (forall v :: v in found ==> v.id != i) ==> after[i] == before[i]
    ensures after == Forgotten(before, volumes, at)
  {
    forall i | i in before ensures after[i] == Forgotten(before, volumes, at)[i] {
      if AtPlace(volumes, at, i) {
        assert volumes[i] in found;
        assert NotesOf(after, volumes[i]) == NotesAt(after, i);
      } else {
        assert forall v :: v in found ==> v.id != i;
      }
    }
  }

  function MarkedIds(volumes: map<string, Volume>, ids: set<string>, online: bool): map<string, Volume> {
    map i | i in volumes :: if i in ids then volumes[i].(missing := !online) else volumes[i]
  }

  lemma MarkNone(volumes: map<string, Volume>, online: bool)
    ensures MarkedIds(volumes, {}, online) == volumes
  {
  }

  lemma MarkOne(volumes: map<string, Volume>, ids: set<string>, v: Volume, online: bool)
    requires v.id in volumes && volumes[v.id] == v
    ensures MarkedIds(volumes, ids + {v.id}, online) == MarkedIds(volumes, ids, online)[v.id := v.(missing := !online)]
    ensures online && !v.missing ==> MarkedIds(volumes, ids + {v.id}, online) == MarkedIds(volumes, ids, online)
  {
  }

  lemma MarkAll(volumes: map<string, Volume>, found: seq<Volume>, ids: set<string>, at: string, online: bool)
    requires ids == set j | 0 <= j < |found| :: found[j].id
    requires forall v :: v in found <==> AtPlace(volumes, at, v.id) && volumes[v.id] == v
    requires AloneOnDrive(volumes)
    ensures MarkedIds(volumes, ids, online) == Marked(volumes, at, online)
    ensures AloneOnDrive(Marked(volumes, at, online))
  {
    forall k | k in volumes ensures k in ids <==> volumes[k].location == at {
      if volumes[k].location == at {
        assert AtPlace(volumes, at, k) && volumes[k].id == k;
        assert volumes[k] in found;
      }
    }
  }
}
