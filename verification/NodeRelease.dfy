// What the node writes to a drive: the outcome of a volume's release (pkg/node/volumemgr.go:338-418), the failure to
// remove a volume (pkg/node/volumemgr.go:524-563), and the note that every volume on it is fake-attached
// (pkg/node/node.go:206-249).

module NodeRelease {
  import opened Types
  import opened Stores
  import opened CRHelper
  import opened DriveRemoval
  import DriveLife

  const NUMBER_OF_RETRIES := 5

  /** GetDriveCRByVolume (cr_helper.go:369-410): the drive of the volume's LVG, or its own. */
  function DriveNameOf(lvgs: map<string, LVG>, v: Volume): Option<string> {
    if !v.onLVM then Some(v.location)
    else if v.location in lvgs && lvgs[v.location].locations != [] then Some(lvgs[v.location].locations[0])
    else None
  }

  function SettledNotes(n: Notes): Notes {
    n.(usage := if n.release.DoneNote? then Released else ReleaseFailed)
  }

  class VolumeManager {
    const client: Cluster
    var drives: map<string, Drive>
    var notes: map<string, Notes>

    constructor (client: Cluster, drives: map<string, Drive>, notes: map<string, Notes>)
      ensures this.client == client && this.drives == drives && this.notes == notes
    {
      this.client, this.drives, this.notes := client, drives, notes;
    }

    method GetDriveCRByVolume(volume: Volume) returns (found: Option<Drive>)
      requires forall d :: d in drives ==> drives[d].name == d
      ensures var n := DriveNameOf(client.lvgs, volume);
              found == if n.Some? && n.value in drives then Some(drives[n.value]) else None
      ensures found.Some? ==>
                if volume.onLVM then volume.location in client.lvgs && MadeOf(client.lvgs[volume.location], found.value.name)
                else found.value.name == volume.location
      ensures found.None? <==>
                if volume.onLVM then
                  volume.location !in client.lvgs || client.lvgs[volume.location].locations == []
                  || client.lvgs[volume.location].locations[0] !in drives
                else volume.location !in drives
    {
      var dUUID := volume.location;
      if volume.onLVM {
        if volume.location !in client.lvgs { return None; }
        var lvg := client.lvgs[volume.location];
        if |lvg.locations| == 0 { return None; }
        dUUID := lvg.locations[0];
      }
      if dUUID !in drives { return None; }
      return Some(drives[dUUID]);
    }

    /** retryDriveUpdate, volumemgr.go:387-418. `accepted` says which attempts the API server accepts. */
    method RetryDriveUpdate(volume: Volume, drive: Drive, note: ReleaseNote, accepted: seq<bool>) returns (written: bool)
      requires |accepted| >= NUMBER_OF_RETRIES && !note.NoNote? && forall d :: d in drives ==> drives[d].name == d
      requires drive.name in drives && drives[drive.name] == drive && DriveNameOf(client.lvgs, volume) == Some(drive.name)
      modifies this`drives
      ensures written <==> true in accepted[..NUMBER_OF_RETRIES]
      ensures written ==>
                drive.name in drives &&
                drives[drive.name] == drive.(usage := if note.DoneNote? then DriveReleasing else DriveFailed,
                                             released := if note.DoneNote? then drive.released + {volume.id} else drive.released)
      ensures drives == if written then old(drives)[drive.name := DriveLife.MarkedDrive(drive, volume.id, note)] else old(drives)
    {
      var current := drive;
      for i := 0 to NUMBER_OF_RETRIES
        invariant current == drive && drives == old(drives) && true !in accepted[..i]
      {
        assert accepted[..i + 1] == accepted[..i] + [accepted[i]];
        var updated := current.(usage := if note == FailedNote then DriveFailed else DriveReleasing);
        if note != FailedNote { updated := updated.(released := updated.released + {volume.id}); }
        if accepted[i] {
          drives := drives[updated.name := updated];
          assert true in accepted[..NUMBER_OF_RETRIES] by { assert accepted[..NUMBER_OF_RETRIES][i]; }
          return true;
        }
        var found := GetDriveCRByVolume(volume);
        current := found.value;
      }
      return false;
    }

    /** The release branch of Reconcile with updateVolumeAndDriveUsageStatus, volumemgr.go:338-385. */
    method ReconcileRelease(id: string, accepted: seq<bool>) returns (marked: bool)
      requires |accepted| >= NUMBER_OF_RETRIES && id in client.volumes && client.volumes[id].id == id
      requires forall d :: d in drives ==> drives[d].name == d
      modifies this`drives, this`notes
      ensures var n, name := NotesAt(old(notes), id), DriveNameOf(client.lvgs, client.volumes[id]);
              if !DriveLife.Settled(n) then !marked && drives == old(drives) && notes == old(notes)
              else
                && notes == old(notes)[id := SettledNotes(n)]
                && n.usage.Releasing? && notes[id].usage == (if n.release.DoneNote? then Released else ReleaseFailed)
                && (marked <==> name.Some? && name.value in old(drives) && true in accepted[..NUMBER_OF_RETRIES])
                && drives == if marked then old(drives)[name.value := DriveLife.MarkedDrive(old(drives)[name.value], id, n.release)]
                             else old(drives)
    {
      marked := false;
      var volume := client.volumes[id];
      var n := NotesOf(notes, volume);
      if n.usage != Releasing { return; }
      var status;
      match n.release {
        case DoneNote => status := Released;
        case FailedNote => status := ReleaseFailed;
        case NoNote => return;
      }
      notes := notes[id := n.(usage := status)];
      var drive := GetDriveCRByVolume(volume);
      if drive.Some? { marked := RetryDriveUpdate(volume, drive.value, n.release, accepted); }
    }

    /** The part of performVolumeRemoving that touches the drive, volumemgr.go:538-560: a failed removal fails the drive.
        The result is the status the volume gets, None for a retry. */
    method PerformVolumeRemoving(volume: Volume, released: bool, accepted: bool) returns (newStatus: Option<Status>)
      requires forall d :: d in drives ==> drives[d].name == d
      modifies this`drives
      ensures var name := DriveNameOf(client.lvgs, volume);
              var found := name.Some? && name.value in old(drives);
              && newStatus == (if volume.missing then Some(Removed) else if !found then None
                               else if released then Some(Removed) else if accepted then Some(Failed) else None)
              && drives == if newStatus == Some(Failed) then old(drives)[name.value := old(drives)[name.value].(usage := DriveFailed)]
                           else old(drives)
    {
      if volume.missing { return Some(Removed); }
      var drive := GetDriveCRByVolume(volume);
      if drive.None? { return None; }
      if !released {
        var updated := drive.value.(usage := DriveFailed);
        if !accepted { return None; }
        drives := drives[updated.name := updated];
        return Some(Failed);
      }
      return Some(Removed);
    }

    method VolumesOn(drive: string) returns (found: seq<Volume>)
      requires OneLVGEach(client.lvgs) && AloneOnDrive(client.volumes)
      ensures forall v :: v in found <==> AtPlace(client.volumes, PlaceOf(client.lvgs, drive), v.id) && client.volumes[v.id] == v
    {
      found := GetVolumesByLocation(client.volumes, client.lvgs, drive);
      ghost var list :| Lists(list, client.volumes) && found == VolumesAt(list, PlaceOf(client.lvgs, drive));
      FoundAll(client.volumes, list, PlaceOf(client.lvgs, drive));
    }

    /** The volume loop of node.go:229-234. */
    method AllFakeAttached(drive: string) returns (ok: bool)
      requires OneLVGEach(client.lvgs) && AloneOnDrive(client.volumes)
      ensures ok <==> forall i :: AtPlace(client.volumes, PlaceOf(client.lvgs, drive), i) ==> NotesAt(notes, i).fakeAttached
    {
      var volumes := VolumesOn(drive);
      assert forall i :: i in client.volumes ==> client.volumes[i].id == i by { HaveTheirIds(client.volumes); }
      hide OneLVGEach, AloneOnDrive, PlaceOf;
      for i := 0 to |volumes|
        invariant forall j :: 0 <= j < i ==> NotesOf(notes, volumes[j]).fakeAttached
      {
        if !NotesOf(notes, volumes[i]).fakeAttached {
          assert volumes[i] in volumes;
          return false;
        }
      }
      forall i | AtPlace(client.volumes, PlaceOf(client.lvgs, drive), i) ensures NotesAt(notes, i).fakeAttached {
        assert client.volumes[i] in volumes;
      }
      return true;
    }

    /** annotateIfAllDRVolsFakeAttached, node.go:206-249: an online drive is noted exactly when every volume on it is
        fake-attached. */
    method AnnotateIfAllDRVolsFakeAttached(volume: Volume) returns (ok: bool)
      requires OneLVGEach(client.lvgs) && AloneOnDrive(client.volumes) && forall d :: d in drives ==> drives[d].name == d
      modifies this`drives
      ensures var name := DriveNameOf(client.lvgs, volume);
              && (ok <==> name.Some? && name.value in old(drives))
              && drives == if ok && old(drives)[name.value].online
                              && (forall i :: AtPlace(client.volumes, PlaceOf(client.lvgs, name.value), i) ==> NotesAt(notes, i).fakeAttached)
                           then old(drives)[name.value := old(drives)[name.value].(fakeAttachDR := true)]
                           else old(drives)
    {
      hide OneLVGEach, AloneOnDrive, PlaceOf, AtPlace;
      var drive := GetDriveCRByVolume(volume);
      if drive.None? { return false; }
      var driveCR := drive.value;
      if !driveCR.online { return true; }
      var all := AllFakeAttached(driveCR.name);
      if all { drives := drives[driveCR.name := driveCR.(fakeAttachDR := true)]; }
      return true;
    }
  }

  // ---- these are the node's steps in the life of a drive ----

  /** GetDriveCRByVolume finds the drive for the volume, and a volume that is not on an LVG has the drive for itself. */
  ghost predicate FoundFor(s: Site, id: string) {
    && OneLVGEach(s.lvgs) && s.drive.Some? && id in s.volumes
    && DriveNameOf(s.lvgs, s.volumes[id]) == Some(s.drive.value.name)
    && (!s.volumes[id].onLVM ==> forall l :: l in s.lvgs ==> !MadeOf(s.lvgs[l], s.drive.value.name))
  }

  /** The drive that the node finds for a volume is the one whose place the volume is at. */
  lemma FoundAtPlace(s: Site, id: string)
    requires FoundFor(s, id)
    ensures DriveLife.OnDrive(s, id)
  {
    PlaceIs(s.lvgs, s.drive.value.name, s.volumes[id].location);
  }

  /** What ReconcileRelease does is the settling of the volume and, if the write comes through, the mark on the drive. */
  lemma ReleaseIsEvents(s: Site, due: map<string, ReleaseNote>, seen: Option<Site>, id: string)
    requires FoundFor(s, id) && DriveLife.Settled(NotesAt(s.notes, id)) && id !in due
    ensures var n := NotesAt(s.notes, id);
            var t := s.(notes := s.notes[id := SettledNotes(n)]);
            && DriveLife.Next(DriveLife.World(s, seen, due), DriveLife.Settles(id), DriveLife.World(t, seen, due[id := n.release]))
            && DriveLife.Next(DriveLife.World(t, seen, due[id := n.release]), DriveLife.Marks(id),
                 DriveLife.World(t.(drive := Some(DriveLife.MarkedDrive(s.drive.value, id, n.release))), seen, due))
            && DriveLife.Next(DriveLife.World(t, seen, due[id := n.release]), DriveLife.Drops(id), DriveLife.World(t, seen, due))
  {
    FoundAtPlace(s, id);
    hide FoundFor;
    var n := NotesAt(s.notes, id);
    var t := s.(notes := s.notes[id := SettledNotes(n)]);
    var held := due[id := n.release];
    assert held - {id} == due;
    assert DriveLife.Next(DriveLife.World(s, seen, due), DriveLife.Settles(id), DriveLife.World(t, seen, held));
  }

  /** A failed removal is the removal failure of the drive's life. */
  lemma FailedRemovalIsEvent(s: Site, due: map<string, ReleaseNote>, seen: Option<Site>, id: string)
    requires FoundFor(s, id) && s.volumes[id].status.Removing? && !s.volumes[id].missing
    ensures DriveLife.Next(DriveLife.World(s, seen, due), DriveLife.RemovalFails(id),
              DriveLife.World(s.(drive := Some(s.drive.value.(usage := DriveFailed)),
                                 volumes := s.volumes[id := s.volumes[id].(status := Failed)]), seen, due))
  {
    FoundAtPlace(s, id);
    hide FoundFor, PlaceIn;
  }
}
