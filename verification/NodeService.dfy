// pkg/node/node.go and the volume reconciler of pkg/node/volumemgr.go: the calls that move a volume
// through its status machine on the node, each proved to make the transition of Lifecycle.dfy.

module NodeService {
  import opened Types
  import opened Lifecycle
  import opened Stores
  import opened VolumeOps

  /** What looking up the device to stage gives. */
  datatype Lookup = DriveFailed | NoPath | PathFound

  /** A staging attempt as the node sees it: the device and the real mount, whether the PVC allows
      fake-attach, whether the drive is on its way out, and whether the fake mount works. */
  datatype StageAttempt = StageAttempt(path: Lookup, mounted: bool, fakeAllowed: bool, driveGoing: bool, fakeMounted: bool)

  function StageOutcomeOf(t: StageAttempt): StageOutcome {
    var failed := t.path.NoPath? || !t.mounted;
    if t.path.DriveFailed? then Unwritten
    else if t.fakeAllowed && (failed || t.driveGoing) then (if t.fakeMounted then FakeAttached else Unwritten)
    else if failed then MountFailed else Mounted
  }

  /** What staging makes of a volume that is not ready yet. If its drive can be read, it is ready when the real mount succeeded,
      or when the PVC allows fake-attach and the fake mount did; it is faked, and then missing, exactly when that is allowed and the
      mount failed or the drive is on its way out; and it fails when the mount failed and faking is not allowed. */
  lemma StageMeans(v: Volume, t: StageAttempt)
    requires v.status.Created? || v.status.Published? || v.status.Failed?
    ensures var w := Staged(v, StageOutcomeOf(t));
            var missed := t.path.NoPath? || !t.mounted;
            var fakes := t.fakeAllowed && (missed || t.driveGoing);
            w == if t.path.DriveFailed? || (fakes && !t.fakeMounted) then v
                 else if fakes then v.(status := VolumeReady, missing := true)
                 else v.(status := if missed then Failed else VolumeReady)
  {
  }

  /** The owners whose pod is gone or is the one the unpublished path belongs to. */
  function Gone(owners: seq<string>, pods: map<string, string>, path: seq<string>): set<string> {
    set o | o in owners && (o !in pods || pods[o] in path)
  }

  class CSINodeService {
    const client: Cluster

    constructor (client: Cluster)
      ensures this.client == client
    {
      this.client := client;
    }

    /** node.go:285-410. */
    method NodeStageVolume(id: string, t: StageAttempt) returns (ok: bool)
      modifies client`volumes
      ensures id !in old(client.volumes) ==> !ok && client.volumes == old(client.volumes)
      ensures id in old(client.volumes) ==>
                var v := old(client.volumes)[id];
                && client.volumes == old(client.volumes)[id := Staged(v, StageOutcomeOf(t))]
                && (ok <==> (v.status.Created? || v.status.VolumeReady? || v.status.Published? || v.status.Failed?)
                            && (StageOutcomeOf(t).Mounted? || StageOutcomeOf(t).FakeAttached?))
    {
      if id !in client.volumes { return false; }
      var volumeCR := client.volumes[id];
      assert client.volumes[id := volumeCR] == client.volumes;
      var currStatus := volumeCR.status;
      match currStatus {
        case Created | VolumeReady | Published | Failed =>
        case _ => return false;
      }
      var newStatus := VolumeReady;
      ok := true;
      var isErr := false;
      match t.path {
        case DriveFailed => return false;
        case NoPath =>
          isErr := true;
          if !t.fakeAllowed { newStatus, ok := Failed, false; }
        case PathFound =>
          if !t.mounted {
            isErr := true;
            if !t.fakeAllowed { newStatus, ok := Failed, false; }
          }
      }
      var isFakeAttachDR := t.fakeAllowed && t.driveGoing;
      if (isErr && t.fakeAllowed) || isFakeAttachDR {
        if !t.fakeMounted { return false; }
        volumeCR := volumeCR.(missing := true);
      }
      if currStatus != VolumeReady {
        volumeCR := volumeCR.(status := newStatus);
        client.volumes := client.volumes[id := volumeCR];
      }
    }

    /** node.go:416-503. */
    method NodeUnstageVolume(id: string, unmounted: bool) returns (ok: bool)
      modifies client`volumes
      ensures id !in old(client.volumes) ==> ok && client.volumes == old(client.volumes)
      ensures id in old(client.volumes) ==>
                var v := old(client.volumes)[id];
                && client.volumes == old(client.volumes)[id := Unstaged(v, unmounted)]
                && (ok <==> v.status.Created? || v.status.Removed? || (v.status.VolumeReady? && unmounted))
                && client.volumes[id] == v.(status := if !v.status.VolumeReady? then v.status else if unmounted then Created else Failed)
    {
      if id !in client.volumes { return true; }
      var volumeCR := client.volumes[id];
      assert client.volumes[id := volumeCR] == client.volumes;
      if volumeCR.status == Created || volumeCR.status == Removed { return true; }
      else if volumeCR.status != VolumeReady { return false; }
      volumeCR := volumeCR.(status := Created);
      ok := true;
      if !unmounted {
        volumeCR := volumeCR.(status := Failed);
        ok := false;
      }
      client.volumes := client.volumes[id := volumeCR];
    }

    /** node.go:509-625. */
    method NodePublishVolume(id: string, podName: string, mounted: bool) returns (ok: bool)
      modifies client`volumes
      ensures id !in old(client.volumes) ==> !ok && client.volumes == old(client.volumes)
      ensures id in old(client.volumes) ==>
                var v := old(client.volumes)[id];
                && client.volumes == old(client.volumes)[id := PublishedBy(v, podName, mounted)]
                && (ok <==> (v.status.VolumeReady? || v.status.Published?) && mounted)
                && (ok ==> client.volumes[id].status.Published?)
                && (v.status.VolumeReady? || v.status.Published? ==>
                      client.volumes[id] == v.(status := if mounted then Published else Failed,
                                               owners := if podName in v.owners then v.owners else v.owners + [podName]))
    {
      if id !in client.volumes { return false; }
      var volumeCR := client.volumes[id];
      assert client.volumes[id := volumeCR] == client.volumes;
      if volumeCR.status != VolumeReady && volumeCR.status != Published { return false; }
      var newStatus := Published;
      ok := true;
      if !mounted { newStatus, ok := Failed, false; }
      var owners := volumeCR.owners;
      var present := ContainsString(owners, podName);
      if !present {
        owners := owners + [podName];
        volumeCR := volumeCR.(owners := owners);
      }
      volumeCR := volumeCR.(status := newStatus);
      client.volumes := client.volumes[id := volumeCR];
    }

    /** The owner loop of node.go:682-708. `pods` maps the pods that can be read to their UIDs. */
    method RemainingOwners(owners: seq<string>, pods: map<string, string>, path: seq<string>) returns (kept: seq<string>)
      ensures kept == Remaining(owners, Gone(owners, pods, path))
      ensures forall o :: o in kept <==> o in owners && o in pods && pods[o] !in path
    {
      kept := [];
      ghost var gone := Gone(owners, pods, path);
      for i := 0 to |owners|
        invariant kept == Remaining(owners[..i], gone)
      {
        assert owners[..i + 1][..i] == owners[..i];
        var owner := owners[i];
        if owner !in pods { continue; }
        var found := false;
        for j := 0 to |path|
          invariant found <==> pods[owner] in path[..j]
        {
          assert path[..j + 1] == path[..j] + [path[j]];
          if pods[owner] == path[j] { found := true; }
        }
        assert path[..|path|] == path;
        if found { continue; }
        kept := kept + [owner];
      }
      assert owners[..|owners|] == owners;
    }

    /** node.go:631-719. */
    method NodeUnpublishVolume(id: string, unmounted: bool, pods: map<string, string>, path: seq<string>) returns (ok: bool)
      modifies client`volumes
      ensures id !in old(client.volumes) ==> !ok && client.volumes == old(client.volumes)
      ensures id in old(client.volumes) ==>
                var v := old(client.volumes)[id];
                && client.volumes == old(client.volumes)[id := UnpublishedBy(v, unmounted, Gone(v.owners, pods, path))]
                && (ok <==> (v.status.VolumeReady? || v.status.Published?) && unmounted)
                && (ok ==> forall o :: o in client.volumes[id].owners <==> o in v.owners && o in pods && pods[o] !in path)
                && (ok ==> client.volumes[id].status == if client.volumes[id].owners == [] then VolumeReady else v.status)
                && (!ok && (v.status.VolumeReady? || v.status.Published?) ==> client.volumes[id] == v.(status := Failed))
    {
      if id !in client.volumes { return false; }
      var volumeCR := client.volumes[id];
      assert client.volumes[id := volumeCR] == client.volumes;
      if volumeCR.status != VolumeReady && volumeCR.status != Published { return false; }
      if !unmounted {
        volumeCR := volumeCR.(status := Failed);
        client.volumes := client.volumes[id := volumeCR];
        return false;
      }
      var owners := RemainingOwners(volumeCR.owners, pods, path);
      volumeCR := volumeCR.(owners := owners);
      if |volumeCR.owners| == 0 {
        volumeCR := volumeCR.(status := VolumeReady);
      }
      client.volumes := client.volumes[id := volumeCR];
      return true;
    }
  }

  class VolumeManager {
    const client: Cluster

    constructor (client: Cluster)
      ensures this.client == client
    {
      this.client := client;
    }

    /** prepareVolume, volumemgr.go:479-500. */
    method PrepareVolume(volume: Volume, prepared: bool)
      requires volume.status.Creating?
      modifies client`volumes
      ensures client.volumes == old(client.volumes)[volume.id := volume.(status := if prepared then Created else Failed)]
      ensures client.volumes == old(client.volumes)[volume.id := Reconciled(volume, if prepared then Done else Broken)]
    {
      var newStatus := Created;
      if !prepared { newStatus := Failed; }
      client.volumes := client.volumes[volume.id := volume.(status := newStatus)];
    }

    /** handleCreatingVolumeInLVG, volumemgr.go:423-475. */
    method HandleCreatingVolumeInLVG(volume: Volume, prepared: bool)
      requires Keyed(client.State()) && volume.status.Creating?
      requires volume.id in client.volumes && client.volumes[volume.id] == volume
      modifies client
      ensures client.State() == PreparedInLVG(old(client.State()), volume.id, if prepared then Done else Broken)
      ensures var l, lvgs := volume.location, old(client.lvgs);
              && client.volumes ==
                   (if l in lvgs && lvgs[l].status.LVGCreating? then old(client.volumes)
                    else old(client.volumes)[volume.id := volume.(status :=
                           if l in lvgs && lvgs[l].status.LVGCreated? && prepared then Created else Failed)])
              && client.lvgs ==
                   (if l in lvgs && lvgs[l].status.LVGCreated? && volume.id !in lvgs[l].volumeRefs
                    then lvgs[l := lvgs[l].(volumeRefs := lvgs[l].volumeRefs + [volume.id])] else lvgs)
    {
      if volume.location !in client.lvgs {
        client.volumes := client.volumes[volume.id := volume.(status := Failed)];
        return;
      }
      var lvg := client.lvgs[volume.location];
      match lvg.status {
        case LVGCreating => return;
        case LVGFailed => client.volumes := client.volumes[volume.id := volume.(status := Failed)];
        case LVGCreated =>
          var known := ContainsString(lvg.volumeRefs, volume.id);
          if !known {
            lvg := lvg.(volumeRefs := lvg.volumeRefs + [volume.id]);
            client.lvgs := client.lvgs[lvg.name := lvg];
          }
          PrepareVolume(volume, prepared);
      }
    }

    /** performVolumeRemoving and handleRemovingStatus, volumemgr.go:505-563. */
    method HandleRemovingStatus(volume: Volume, driveRead: bool, released: bool)
      requires volume.status.Removing? && volume.id in client.volumes
      modifies client`volumes
      ensures var o := if !driveRead then Retry else if released then Done else Broken;
              client.volumes == if !volume.missing && o.Retry? then old(client.volumes)
                                else old(client.volumes)[volume.id := Reconciled(volume, o)]
      ensures client.volumes ==
                if volume.missing || (driveRead && released) then old(client.volumes)[volume.id := volume.(status := Removed)]
                else if driveRead then old(client.volumes)[volume.id := volume.(status := Failed)]
                else old(client.volumes)
    {
      var newStatus;
      if volume.missing {
        newStatus := Removed;
      } else {
        if !driveRead { return; }
        newStatus := if released then Removed else Failed;
      }
      client.volumes := client.volumes[volume.id := volume.(status := newStatus)];
    }

    /** handleExpandingStatus, volumemgr.go:1280-1299. */
    method HandleExpandingStatus(volume: Volume, pathFound: bool, extended: bool)
      requires volume.status.Resizing? && volume.id in client.volumes
      modifies client`volumes
      ensures client.volumes == if !pathFound then old(client.volumes)
                                else old(client.volumes)[volume.id := volume.(status := if extended then Resized else Failed)]
      ensures client.volumes == if !pathFound then old(client.volumes)
                                else old(client.volumes)[volume.id := Reconciled(volume, if extended then Done else Broken)]
    {
      if !pathFound { return; }
      var newStatus := Failed;
      if extended { newStatus := Resized; }
      client.volumes := client.volumes[volume.id := volume.(status := newStatus)];
    }

    /** Reconcile, volumemgr.go:262-336. `found` and `done` are the outcome of the command the status
        calls for; the result says whether the finalizer of a deleted CR was removed. */
    method Reconcile(id: string, deleting: bool, found: bool, done: bool) returns (finalized: bool)
      requires Keyed(client.State())
      requires forall i :: i in client.volumes ==> (client.volumes[i].onLVM <==> IsLVG(client.volumes[i].sc))
      modifies client
      ensures id !in old(client.volumes) ==> !finalized && client.State() == old(client.State())
      ensures id in old(client.volumes) ==>
                var v := old(client.volumes)[id];
                var o := OutcomeOf(v.status, found, done);
                && (finalized <==> deleting && (v.status.Removed? || v.status.Failed?))
                && client.State() ==
                     if deleting then old(client.State()).(volumes := old(client.volumes)[id := ReconciledDeleting(v, o)])
                     else if v.status.Creating? && v.onLVM then PreparedInLVG(old(client.State()), id, o)
                     else old(client.State()).(volumes := old(client.volumes)[id := Reconciled(v, o)])
      ensures id in old(client.volumes) ==>
                var v, w := old(client.volumes)[id], client.volumes[id];
                && (!deleting && v.status.Resizing? ==> w == v.(status := if !found then Resizing else if done then Resized else Failed))
                && ((v.status.Removing? || (deleting && v.status.Created?)) ==>
                      w == v.(status := if v.missing || (found && done) then Removed else if found then Failed else v.status))
                && (!deleting && v.status.Creating? && !v.onLVM ==> w == v.(status := if done then Created else Failed))
    {
      finalized := false;
      if id !in client.volumes { return; }
      var volume := client.volumes[id];
      assert client.volumes[id := volume] == client.volumes;
      if deleting {
        match volume.status {
          case Created => volume := volume.(status := Removing);
          case Removing =>
          case Removed | Failed => return true;
          case _ => return;
        }
      }
      match volume.status {
        case Creating =>
          if IsLVG(volume.sc) { HandleCreatingVolumeInLVG(volume, done); }
          else { PrepareVolume(volume, done); }
        case Removing => HandleRemovingStatus(volume, found, done);
        case Resizing => HandleExpandingStatus(volume, found, done);
        case _ =>
      }
    }
  }

  /** Creating has no lookup that could fail first. */
  function OutcomeOf(status: Status, found: bool, done: bool): NodeOutcome {
    if !found && !status.Creating? then Retry else if done then Done else Broken
  }
}
