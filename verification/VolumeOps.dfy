// pkg/common/volume_operations.go, pkg/common/ac_operations.go and ReleaseReservation of
// pkg/base/capacityplanner/helpers.go as steps over the API objects, each proved to have the
// effect that Store.dfy states for it.

module VolumeOps {
  import opened Types
  import opened Align
  import opened Lifecycle
  import opened Stores
  import opened CRHelper

  /** ContainsString. */
  method ContainsString(slice: seq<string>, str: string) returns (found: bool)
    ensures found <==> str in slice
  {
    for i := 0 to |slice|
      invariant str !in slice[..i]
    {
      if slice[i] == str { return true; }
    }
    return false;
  }

  /** RemoveString. */
  method RemoveString(slice: seq<string>, s: string) returns (result: seq<string>)
    ensures result == Without(slice, s)
  {
    result := [];
    for i := 0 to |slice|
      invariant result == Without(slice[..i], s)
    {
      assert slice[..i + 1][..i] == slice[..i];
      if slice[i] == s { continue; }
      result := result + [slice[i]];
    }
    assert slice[..|slice|] == slice;
  }

  ghost predicate FirstNamed(rs: seq<ReservationRequest>, name: string, i: nat) {
    i < |rs| && rs[i].cap.name == name && forall j :: 0 <= j < i ==> rs[j].cap.name != name
  }

  ghost predicate Holds(acr: ACR, namespace: string, name: string) {
    acr.status.Reserved? && acr.namespace == namespace && exists i :: 0 <= i < |acr.requests| && acr.requests[i].cap.name == name
  }

  lemma {:induction false} FoundOnNode(acs: map<string, AC>, names: seq<string>, node: string)
    ensures FindCapacity(acs, names, node).Found? ==>
              var a := FindCapacity(acs, names, node).a;
              a in names && a in acs && acs[a].nodeId == node
  {
    if names != [] { FoundOnNode(acs, names[1..], node); }
  }

  /** copy(orig[num:], orig[num+1:]): element num is overwritten by its successors. */
  method ShiftOut(orig: array<ReservationRequest>, num: nat)
    requires num < orig.Length
    modifies orig
    ensures orig[..orig.Length - 1] == RemoveAt(old(orig[..]), num)
  {
    var size := orig.Length;
    for i := num to size - 1
      invariant forall j :: 0 <= j < num ==> orig[j] == old(orig[j])
      invariant forall j :: num <= j < i ==> orig[j] == old(orig[j + 1])
      invariant forall j :: i <= j < size ==> orig[j] == old(orig[j])
    {
      orig[i] := orig[i + 1];
    }
  }

  method FindRequest(rs: seq<ReservationRequest>, name: string) returns (found: Option<nat>)
    ensures found.Some? ==> FirstNamed(rs, name, found.value)
    ensures found.None? ==> forall i :: 0 <= i < |rs| ==> rs[i].cap.name != name
  {
    for i := 0 to |rs|
      invariant forall j :: 0 <= j < i ==> rs[j].cap.name != name
    {
      if rs[i].cap.name == name { return Some(i); }
    }
    return None;
  }

  method SumUp(acs: seq<AC>) returns (lvgLocations: seq<string>, lvgSize: int)
    ensures lvgLocations == Locations(acs) && lvgSize == UsableSize(acs)
  {
    lvgLocations, lvgSize := [], 0;
    for i := 0 to |acs|
      invariant lvgSize == UsableSize(acs[..i]) && lvgLocations == Locations(acs[..i])
    {
      assert acs[..i + 1][..i] == acs[..i];
      lvgLocations := lvgLocations + [acs[i].location];
      lvgSize := lvgSize + SubtractMetadata(acs[i].size);
    }
    assert acs[..|acs|] == acs;
  }

  /** What a creation takes, `paid` saying whether the AC could be written: of an LVG - of a drive that becomes one, less the
      metadata - as many whole extents as the volume needs, of a drive everything. */
  predicate TakesSpace(before: AC, v: VolumeSpec, volume: Volume, after: AC, paid: bool) {
    var offered := if before.sc == v.sc then before.size else SubtractMetadata(before.size);
    && (IsLVG(v.sc) ==>
          && volume.onLVM && volume.sc == v.sc && after.sc == v.sc
          && volume.size % PE == 0 && v.size <= volume.size < v.size + PE
          && after.size == if paid then offered - volume.size else offered)
    && (!IsLVG(v.sc) && !IsLVG(before.sc) ==>
          && !volume.onLVM && volume.sc == before.sc && volume.location == before.location
          && volume.size % MBYTE == 0 && (before.size >= 0 ==> before.size - MBYTE < volume.size <= before.size)
          && after == if paid then before.(size := 0) else before)
  }

  lemma UsableSizeOfOne(ac: AC)
    ensures UsableSize([ac]) == SubtractMetadata(ac.size)
  {
    assert [ac][..0] == [];
  }

  datatype CreateResult = CreateDone(volume: Volume) | NoReservation | NoCapacityCR | NoDriveOnNode | NoPVC

  class VolumeOperations {
    const client: Cluster

    constructor (client: Cluster)
      ensures this.client == client
    {
      this.client := client;
    }

    /** helpers.go:85-110: the request slice is shifted in place, or the whole ACR is deleted. */
    method ReleaseReservation(reservation: ACR, requestNum: nat)
      requires requestNum < |reservation.requests|
      modifies client`acrs
      ensures client.acrs == Released(old(client.acrs), reservation, requestNum)
    {
      var size := |reservation.requests|;
      if size == 1 {
        client.acrs := client.acrs - {reservation.name};
        return;
      }
      var orig := new ReservationRequest[size](i requires 0 <= i < size => reservation.requests[i]);
      assert orig[..] == reservation.requests;
      ShiftOut(orig, requestNum);
      client.acrs := client.acrs[reservation.name := reservation.(requests := orig[..size - 1])];
    }

    /** volume_operations.go:296-336. */
    method GetVolumeReservation(namespace: string, name: string) returns (found: Option<(ACR, nat)>)
      requires Keyed(client.State())
      ensures found.Some? ==>
                var (acr, i) := found.value;
                && acr.name in client.acrs && client.acrs[acr.name] == acr
                && acr.status.Reserved? && acr.namespace == namespace && FirstNamed(acr.requests, name, i)
                && i < |acr.requests| && acr.requests[i].cap.name == name && forall j :: 0 <= j < i ==> acr.requests[j].cap.name != name
      ensures found.None? ==> forall k :: k in client.acrs ==> !Holds(client.acrs[k], namespace, name)
      ensures found.None? ==>
                forall k :: k in client.acrs && client.acrs[k].status.Reserved? && client.acrs[k].namespace == namespace ==>
                  forall j :: 0 <= j < |client.acrs[k].requests| ==> client.acrs[k].requests[j].cap.name != name
    {
      var list := ReadList(client.acrs);
      for n := 0 to |list|
        invariant forall m :: 0 <= m < n ==> !Holds(list[m], namespace, name)
      {
        var reservation := list[n];
        if !reservation.status.Reserved? || reservation.namespace != namespace { continue; }
        var request := FindRequest(reservation.requests, name);
        if request.Some? {
          ghost var k := ListedElement(list, client.acrs, n);
          return Some((reservation, request.value));
        }
      }
      ListedAll(list, client.acrs);
      return None;
    }

    /** ac_operations.go:72-128. Only the first AC is rewritten; the code that would empty the others is disabled. */
    method RecreateACToLVGSC(newSC: StorageClass, acs: seq<AC>, lvgName: string) returns (updatedAC: Option<AC>)
      modifies client`acs, client`lvgs
      ensures acs == [] ==> updatedAC.None? && client.State() == old(client.State())
      ensures acs != [] ==> client.State() == Converted(old(client.State()), newSC, acs, lvgName)
                            && updatedAC == Some(client.acs[acs[0].name])
      ensures acs != [] ==>
                && lvgName in client.lvgs
                && var lvg := client.lvgs[lvgName];
                   && lvg == LVG(lvgName, acs[0].nodeId, lvg.locations, lvg.size, LVGCreating, [], false) && |lvg.locations| == |acs|
                   && (forall i :: 0 <= i < |acs| ==> lvg.locations[i] == acs[i].location)
                   && updatedAC == Some(acs[0].(size := lvg.size, location := lvgName, sc := newSC))
    {
      if acs == [] { return None; }
      var lvgLocations, lvgSize := SumUp(acs);
      var lvg := LVG(lvgName, acs[0].nodeId, lvgLocations, lvgSize, LVGCreating, [], false);
      client.lvgs := client.lvgs[lvgName := lvg];
      var updated := acs[0];
      updated := updated.(size := lvgSize);
      updated := updated.(location := lvg.name);
      updated := updated.(sc := newSC);
      client.acs := client.acs[updated.name := updated];
      return Some(updated);
    }

    /** The search loop of volume_operations.go:169-181. */
    method SearchCapacity(names: seq<string>, node: string) returns (r: Search)
      ensures r == FindCapacity(client.acs, names, node)
    {
      for i := 0 to |names|
        invariant FindCapacity(client.acs, names, node) == FindCapacity(client.acs, names[i..], node)
      {
        assert names[i..][0] == names[i] && names[i..][1..] == names[i + 1..];
        if names[i] !in client.acs { return Missing(names[i]); }
        if client.acs[names[i]].nodeId == node { return Found(names[i]); }
      }
      return NotOnNode;
    }

    /** volume_operations.go:197-252: the Volume CR is created, then the AC is written. */
    method RecordVolume(v: VolumeSpec, capacity: AC, acUpdated: bool) returns (volume: Volume)
      requires capacity.name in client.acs && client.acs[capacity.name] == capacity
      modifies client
      ensures client.State() == Placed(old(client.State()), v, capacity.name, acUpdated) && volume == client.volumes[v.id]
      ensures volume == Volume(v.id, capacity.nodeId, volume.size, capacity.location, capacity.sc, volume.onLVM, Creating, true, false, [], None, None)
      ensures IsLVG(capacity.sc) ==>
                && volume.onLVM && volume.size % PE == 0 && v.size <= volume.size < v.size + PE
                && client.acs == (if acUpdated then old(client.acs)[capacity.name := capacity.(size := capacity.size - volume.size)] else old(client.acs))
      ensures !IsLVG(capacity.sc) ==>
                && !volume.onLVM && volume.size % MBYTE == 0 && (capacity.size >= 0 ==> capacity.size - MBYTE < volume.size <= capacity.size)
                && client.acs == (if acUpdated then old(client.acs)[capacity.name := capacity.(size := 0)] else old(client.acs))
    {
      var ac := capacity;
      var allocatedBytes;
      if IsLVG(ac.sc) {
        allocatedBytes := AlignPE(v.size);
      } else {
        allocatedBytes := AlignMB(ac.size);
      }
      volume := Volume(v.id, ac.nodeId, allocatedBytes, ac.location, ac.sc, IsLVG(ac.sc), Creating, true, false, [], None, None);
      client.volumes := client.volumes[v.id := volume];
      if IsLVG(ac.sc) {
        ac := ac.(size := ac.size - allocatedBytes);
      } else {
        ac := ac.(size := 0);
      }
      if acUpdated { client.acs := client.acs[ac.name := ac]; }
    }

    /** volume_operations.go:186-252: the AC is converted if the class demands it, then the volume is recorded. */
    method CreateOn(v: VolumeSpec, capacity: AC, lvgName: string, pvcFound: bool, acUpdated: bool) returns (volume: Option<Volume>)
      requires capacity.name in client.acs && client.acs[capacity.name] == capacity
      modifies client
      ensures volume.Some? <==> pvcFound
      ensures client.acrs == old(client.acrs)
      ensures var t := WithLVG(old(client.State()), v, capacity.name, lvgName);
              client.State() == if pvcFound then Placed(t, v, capacity.name, acUpdated) else t
      ensures pvcFound ==>
                && v.id in client.volumes && volume.value == client.volumes[v.id]
                && capacity.name in client.acs && TakesSpace(capacity, v, volume.value, client.acs[capacity.name], acUpdated)
    {
      var ac := capacity;
      if ac.sc != v.sc && IsLVG(v.sc) {
        var recreated := RecreateACToLVGSC(v.sc, [ac], lvgName);
        ac := recreated.value;
        UsableSizeOfOne(capacity);
      }
      hide UsableSize, Locations;
      if !pvcFound { return None; }
      var created := RecordVolume(v, ac, acUpdated);
      return Some(created);
    }

    /** volume_operations.go:153-259. `pvcFound` and `acUpdated` are the outcomes of reading
        the PVC labels and of writing the smaller AC. */
    method HandleVolumeCreation(v: VolumeSpec, namespace: string, reservationName: string, lvgName: string, pvcFound: bool, acUpdated: bool)
      returns (r: CreateResult, ghost acr: ACR, ghost num: nat, ghost a: string)
      requires Keyed(client.State())
      modifies client
      ensures r.NoReservation? <==> forall k :: k in old(client.acrs) ==> !Holds(old(client.acrs[k]), namespace, reservationName)
      ensures !r.NoReservation? ==>
                && acr.name in old(client.acrs) && old(client.acrs)[acr.name] == acr
                && acr.status.Reserved? && acr.namespace == namespace && FirstNamed(acr.requests, reservationName, num)
                && var search := FindCapacity(old(client.acs), acr.requests[num].reservations, v.nodeId);
                   && (r.NoCapacityCR? <==> search.Missing?)
                   && (r.NoDriveOnNode? <==> search.NotOnNode?)
                   && (search.Found? ==> search.a == a && a in old(client.acs))
      ensures r.NoReservation? || r.NoCapacityCR? || r.NoDriveOnNode? ==> client.State() == old(client.State())
      ensures r.NoPVC? ==> !pvcFound && a in old(client.acs) && client.State() == WithLVG(old(client.State()), v, a, lvgName)
      ensures r.CreateDone? ==>
                && pvcFound && a in old(client.acs) && old(client.acs)[a].name == a
                && client.State() == VolumeCreated(old(client.State()), acr, num, v, a, lvgName, acUpdated)
                && r.volume == client.volumes[v.id]
      ensures r.CreateDone? ==> a in client.acs && TakesSpace(old(client.acs)[a], v, r.volume, client.acs[a], acUpdated)
    {
      acr, num, a := ACR("", "", Requested, [], [], []), 0, "";
      var found := GetVolumeReservation(namespace, reservationName);
      if found.None? { return NoReservation, acr, num, a; }
      var (podReservation, volumeReservationNum) := found.value;
      acr, num := podReservation, volumeReservationNum;
      assert Holds(podReservation, namespace, reservationName);
      var search := SearchCapacity(podReservation.requests[volumeReservationNum].reservations, v.nodeId);
      match search {
        case Missing(_) => return NoCapacityCR, acr, num, a;
        case NotOnNode => return NoDriveOnNode, acr, num, a;
        case Found(name) =>
          FoundOnNode(client.acs, podReservation.requests[volumeReservationNum].reservations, v.nodeId);
          a := name;
          var created := CreateOn(v, client.acs[name], lvgName, pvcFound, acUpdated);
          if created.None? { return NoPVC, acr, num, a; }
          ReleaseReservation(podReservation, volumeReservationNum);
          return CreateDone(created.value), acr, num, a;
      }
    }

    /** volume_operations.go:355-395. Returns whether the caller goes on to wait for removal. */
    method DeleteVolume(id: string) returns (ok: bool)
      requires Keyed(client.State())
      modifies client`volumes
      ensures id !in old(client.volumes) ==> !ok && client.volumes == old(client.volumes)
      ensures id in old(client.volumes) ==>
                var v := old(client.volumes)[id];
                && client.volumes == old(client.volumes)[id := DeleteRequested(v)]
                && (ok <==> v.status.Created? || v.status.Removing? || v.status.Removed?)
    {
      if id !in client.volumes { return false; }
      var volumeCR := client.volumes[id];
      match volumeCR.status {
        case Created =>
          volumeCR := volumeCR.(status := Removing);
          client.volumes := client.volumes[id := volumeCR];
          return true;
        case Removed | Removing => return true;
        case _ => return false;
      }
    }

    /** volume_operations.go:400-478. */
    method UpdateCRsAfterVolumeDeletion(id: string) returns (ok: bool, ghost a: string)
      requires Keyed(client.State())
      requires forall i :: i in client.volumes ==> (client.volumes[i].onLVM <==> IsLVG(client.volumes[i].sc))
      modifies client
      ensures id !in old(client.volumes) ==> ok && client.State() == old(client.State())
      ensures id in old(client.volumes) ==>
                var v := old(client.volumes)[id];
                && (!ok ==> client.State() == old(client.State()))
                && (ok <==> (exists b :: ACAt(old(client.State()), v.location, b))
                            && DriveAndLVG(old(client.State()), v) != (None, None))
                && (ok ==> ACAt(old(client.State()), v.location, a) && client.State() == VolumeDeleted(old(client.State()), id, a))
      ensures id in old(client.volumes) && ok ==>
                var v, l := old(client.volumes)[id], old(client.volumes)[id].location;
                && client.volumes == old(client.volumes) - {id}
                && a in client.acs && client.acs[a].size == old(client.acs)[a].size + (if v.healthy then v.size else 0)
                && (!v.onLVM ==> client.lvgs == old(client.lvgs) && client.acs[a].location == l && client.acs[a].sc == old(client.acs)[a].sc)
      ensures id in old(client.volumes) && ok && old(client.volumes)[id].onLVM ==>
                var l := old(client.volumes)[id].location;
                && l in old(client.lvgs)
                && var lvg := old(client.lvgs)[l];
                   if |lvg.volumeRefs| > 1 then
                     && client.acs[a].location == l && client.acs[a].sc == old(client.acs)[a].sc
                     && exists refs :: client.lvgs == old(client.lvgs)[l := lvg.(volumeRefs := refs)]
                                       && forall x :: x in refs <==> x in lvg.volumeRefs && x != id
                   else
                     && client.lvgs == old(client.lvgs)[l := lvg.(deleting := true)]
                     && (lvg.locations != [] && lvg.locations[0] in client.drives ==>
                           client.acs[a].location == lvg.locations[0]
                           && client.acs[a].sc == (match client.drives[lvg.locations[0]]
                                                   case DriveHDD => HDD case DriveSSD => SSD case DriveNVMe => NVMe case DriveOther => Any))
    {
      a := "";
      if id !in client.volumes { return true, a; }
      var volumeCR := client.volumes[id];
      var found := GetACByLocation(client.acs, volumeCR.location);
      if found.None? { return false, a; }
      var acCR := found.value;
      a := acCR.name;
      assert ACAt(old(client.State()), volumeCR.location, a);
      var (driveCR, lvgCR) := DriveAndLVG(Store(client.acs, client.acrs, client.volumes, client.lvgs, client.drives), volumeCR);
      if driveCR.None? && lvgCR.None? { return false, a; }
      var removeLVG := false;
      if IsLVG(volumeCR.sc) {
        var lvg := lvgCR.value;
        if |lvg.volumeRefs| > 1 {
          var refs := RemoveString(lvg.volumeRefs, volumeCR.id);
          lvgCR := Some(lvg.(volumeRefs := refs));
        } else {
          removeLVG := true;
        }
      }
      if removeLVG && driveCR.Some? {
        acCR := acCR.(location := driveCR.value);
        acCR := acCR.(sc := DriveClass(client.drives[driveCR.value]));
      }
      if volumeCR.healthy {
        acCR := acCR.(size := acCR.size + volumeCR.size);
      }
      client.acs := client.acs[acCR.name := acCR];
      if IsLVG(volumeCR.sc) {
        if removeLVG { lvgCR := Some(lvgCR.value.(deleting := true)); }
        client.lvgs := client.lvgs[volumeCR.location := lvgCR.value];
      }
      client.volumes := client.volumes - {id};
      return true, a;
    }

    /** volume_operations.go:572-594. */
    method ReserveExpansion(volume: Volume, requiredBytes: int, capacity: AC) returns (ok: bool)
      requires Expandable(volume) && capacity.name in client.acs && client.acs[capacity.name] == capacity
      modifies client
      ensures client.State() == ExpandReserved(old(client.State()), volume, requiredBytes, capacity.name)
      ensures ok <==> requiredBytes - volume.size <= capacity.size
                      && volume.id in old(client.volumes) && old(client.volumes)[volume.id] == volume
    {
      var acSize := requiredBytes - volume.size;
      if capacity.size < acSize { return false; }
      var updatedAC := capacity.(size := capacity.size - acSize);
      client.acs := client.acs[capacity.name := updatedAC];
      var updated := volume.(previousStatus := Some(volume.status));
      updated := updated.(previousCapacity := Some(volume.size));
      updated := updated.(status := Resizing);
      updated := updated.(size := requiredBytes);
      if volume.id !in client.volumes || client.volumes[volume.id] != volume { return false; }
      client.volumes := client.volumes[volume.id := updated];
      return true;
    }

    /** volume_operations.go:551-599. `volume` is the copy read before the lock was taken. */
    method ExpandVolume(volume: Volume, requiredBytes: int) returns (ok: bool, ghost a: string)
      requires Keyed(client.State())
      modifies client
      ensures volume.status.Resizing? || volume.status.Resized? ==> ok && client.State() == old(client.State())
      ensures Expandable(volume) && (exists b :: ACAt(old(client.State()), volume.location, b)) ==>
                && ACAt(old(client.State()), volume.location, a)
                && client.State() == ExpandReserved(old(client.State()), volume, requiredBytes, a)
                && (ok <==> requiredBytes - volume.size <= old(client.acs)[a].size
                            && volume.id in old(client.volumes) && old(client.volumes)[volume.id] == volume)
      ensures !Expandable(volume) || !(exists b :: ACAt(old(client.State()), volume.location, b)) ==>
                client.State() == old(client.State()) && (ok ==> volume.status.Resizing? || volume.status.Resized?)
    {
      a := "";
      match volume.status {
        case Resizing | Resized => return true, a;
        case VolumeReady | Created | Published =>
          if !IsLVG(volume.sc) { return false, a; }
          var found := GetACByLocation(client.acs, volume.location);
          if found.None? { return false, a; }
          var capacity := found.value;
          a := capacity.name;
          assert ACAt(old(client.State()), volume.location, a);
          ok := ReserveExpansion(volume, requiredBytes, capacity);
        case _ => return false, a;
      }
    }

    /** volume_operations.go:631-641. */
    method RefundExpansion(located: Option<AC>, bytes: int)
      modifies client`acs
      ensures client.acs == if located.None? then old(client.acs)
                            else old(client.acs)[located.value.name := located.value.(size := located.value.size + bytes)]
    {
      if located.Some? {
        var ac := located.value;
        ac := ac.(size := ac.size + bytes);
        client.acs := client.acs[ac.name := ac];
      }
    }

    /** volume_operations.go:604-657. The AC is refunded only if it is found. */
    method UpdateCRsAfterVolumeExpansion(id: string, requiredBytes: int) returns (ghost a: string)
      requires Keyed(client.State())
      modifies client
      ensures id !in old(client.volumes) ==> client.State() == old(client.State())
      ensures id in old(client.volumes) && (exists b :: ACAt(old(client.State()), old(client.volumes)[id].location, b)) ==>
                && ACAt(old(client.State()), old(client.volumes)[id].location, a)
                && client.State() == ExpandSettled(old(client.State()), id, requiredBytes, a)
      ensures id in old(client.volumes) ==>
                client.volumes == old(client.volumes)[id := ExpandFinished(old(client.volumes)[id])]
    {
      a := "";
      if id !in client.volumes { return a; }
      var volume := client.volumes[id];
      var located := GetACByLocation(client.acs, volume.location);
      ghost var was := volume;
      if located.Some? { a := located.value.name; }
      assert a in client.acs ==> client.acs[a].name == a;
      hide Keyed;
      match volume.status {
        case Failed =>
          if volume.previousCapacity.None? { return a; }
          volume := volume.(size := volume.previousCapacity.value);
          RefundExpansion(located, requiredBytes - volume.size);
        case Resized =>
          if volume.previousStatus.Some? { volume := volume.(status := volume.previousStatus.value); }
        case _ => return a;
      }
      volume := volume.(previousCapacity := None);
      volume := volume.(previousStatus := None);
      assert volume == ExpandFinished(was);
      hide ExpandFinished;
      client.volumes := client.volumes[id := volume];
    }
  }
}
