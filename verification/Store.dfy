// The custom resources held by the Kubernetes API, the lookups of pkg/base/k8s/cr_helper.go, and
// the effect of each volume operation on the whole store.

module Stores {
  import opened Types
  import opened Align
  import opened Lifecycle

  datatype Store = Store(acs: map<string, AC>, acrs: map<string, ACR>, volumes: map<string, Volume>,
                         lvgs: map<string, LVG>, drives: map<string, DriveType>)

  /** The client's view of the API server. Reads return copies, writes replace whole objects. */
  class Cluster {
    var acs: map<string, AC>
    var acrs: map<string, ACR>
    var volumes: map<string, Volume>
    var lvgs: map<string, LVG>
    var drives: map<string, DriveType>

    constructor (s: Store)
      ensures State() == s
    {
      acs, acrs, volumes, lvgs, drives := s.acs, s.acrs, s.volumes, s.lvgs, s.drives;
    }

    ghost function State(): Store
      reads this
    {
      Store(acs, acrs, volumes, lvgs, drives)
    }
  }

  /** The elements of a map in some order, as ReadList returns them. */
  ghost predicate Lists<T>(l: seq<T>, m: map<string, T>) {
    exists keys :: ListedBy(l, m, keys)
  }

  ghost predicate ListedBy<T>(l: seq<T>, m: map<string, T>, keys: seq<string>) {
    && |keys| == |l| == |m| && Distinct(keys) && (forall k :: k in keys <==> k in m)
    && forall i :: 0 <= i < |l| ==> keys[i] in m && l[i] == m[keys[i]]
  }

  /** Objects are stored under their own names. */
  ghost predicate Keyed(s: Store) {
    && (forall n :: n in s.acs ==> s.acs[n].name == n)
    && (forall n :: n in s.acrs ==> s.acrs[n].name == n)
    && (forall n :: n in s.volumes ==> s.volumes[n].id == n)
    && (forall n :: n in s.lvgs ==> s.lvgs[n].name == n)
  }

  // ---- lookups ----

  ghost predicate ACAt(s: Store, location: string, a: string) {
    a in s.acs && s.acs[a].location == location
  }

  /** GetDriveCRAndLVGCRByVolume: the drive, if its CR can be read, and the LVG of an LVM volume. */
  function DriveAndLVG(s: Store, v: Volume): (Option<string>, Option<LVG>) {
    if v.onLVM then
      if v.location !in s.lvgs || s.lvgs[v.location].locations == [] then (None, None)
      else
        var lvg := s.lvgs[v.location];
        (if lvg.locations[0] in s.drives then Some(lvg.locations[0]) else None, Some(lvg))
    else (if v.location in s.drives then Some(v.location) else None, None)
  }

  // ---- conversion of a drive AC (ac_operations.go:72-128) ----

  function UsableSize(acs: seq<AC>): int {
    if acs == [] then 0 else UsableSize(acs[..|acs| - 1]) + SubtractMetadata(acs[|acs| - 1].size)
  }

  function Locations(acs: seq<AC>): (r: seq<string>)
    ensures |r| == |acs| && forall i :: 0 <= i < |r| ==> r[i] == acs[i].location
  {
    seq(|acs|, i requires 0 <= i < |acs| => acs[i].location)
  }

  function Converted(s: Store, sc: StorageClass, acs: seq<AC>, lvgName: string): Store
    requires acs != []
  {
    var lvg := LVG(lvgName, acs[0].nodeId, Locations(acs), UsableSize(acs), LVGCreating, [], false);
    s.(lvgs := s.lvgs[lvgName := lvg],
       acs := s.acs[acs[0].name := acs[0].(size := UsableSize(acs), location := lvgName, sc := sc)])
  }

  // ---- creation (volume_operations.go:153-259) ----

  /** What CreateVolume asks for. */
  datatype VolumeSpec = VolumeSpec(id: string, nodeId: string, sc: StorageClass, size: nat)

  datatype Search = Found(a: string) | Missing(name: string) | NotOnNode

  /** The loop over volumeReservation.Reservations: stops at the first AC of the node, or at the
      first name that cannot be read. */
  function FindCapacity(acs: map<string, AC>, names: seq<string>, node: string): Search {
    if names == [] then NotOnNode
    else if names[0] !in acs then Missing(names[0])
    else if acs[names[0]].nodeId == node then Found(names[0])
    else FindCapacity(acs, names[1..], node)
  }

  predicate NeedsConversion(ac: AC, sc: StorageClass) {
    ac.sc != sc && IsLVG(sc)
  }

  function WithLVG(s: Store, v: VolumeSpec, a: string, lvgName: string): (r: Store)
    requires a in s.acs
    ensures s.acs[a].name == a ==> a in r.acs
  {
    if NeedsConversion(s.acs[a], v.sc) then Converted(s, v.sc, [s.acs[a]], lvgName) else s
  }

  function Allocated(ac: AC, v: VolumeSpec): int {
    if IsLVG(ac.sc) then AlignPE(v.size) else AlignMB(ac.size)
  }

  function NewVolume(ac: AC, v: VolumeSpec): Volume {
    Volume(v.id, ac.nodeId, Allocated(ac, v), ac.location, ac.sc, IsLVG(ac.sc), Creating, true, false, [], None, None)
  }

  /** The volume is recorded and its bytes are taken from AC a - unless that write fails, which is only logged. */
  function Placed(s: Store, v: VolumeSpec, a: string, paid: bool): Store
    requires a in s.acs
  {
    var ac := s.acs[a];
    s.(volumes := s.volumes[v.id := NewVolume(ac, v)],
       acs := if paid then s.acs[a := ac.(size := if IsLVG(ac.sc) then ac.size - Allocated(ac, v) else 0)] else s.acs)
  }

  function RemoveAt<T>(s: seq<T>, i: nat): (r: seq<T>)
    requires i < |s|
    ensures |r| == |s| - 1
  {
    s[..i] + s[i + 1..]
  }

  /** ReleaseReservation (helpers.go:85-110). */
  function Released(acrs: map<string, ACR>, acr: ACR, num: nat): map<string, ACR>
    requires num < |acr.requests|
  {
    if |acr.requests| == 1 then acrs - {acr.name}
    else acrs[acr.name := acr.(requests := RemoveAt(acr.requests, num))]
  }

  /** A successful CreateVolume for request num of acr, on AC a. */
  function VolumeCreated(s: Store, acr: ACR, num: nat, v: VolumeSpec, a: string, lvgName: string, paid: bool): Store
    requires a in s.acs && s.acs[a].name == a && num < |acr.requests|
  {
    var placed := Placed(WithLVG(s, v, a, lvgName), v, a, paid);
    placed.(acrs := Released(placed.acrs, acr, num))
  }

  // ---- deletion (volume_operations.go:400-478) ----

  function Without(refs: seq<string>, id: string): (r: seq<string>)
    ensures forall x :: x in r <==> x in refs && x != id
    ensures id !in refs ==> r == refs
  {
    if refs == [] then []
    else
      var last := refs[|refs| - 1];
      assert refs == refs[..|refs| - 1] + [last];
      Without(refs[..|refs| - 1], id) + (if last == id then [] else [last])
  }

  /** The AC once volume v is gone: back on its drive if the LVG is to go too, larger if v was healthy. */
  function ACAfterDeletion(s: Store, v: Volume, ac: AC): AC {
    var (drive, lvg) := DriveAndLVG(s, v);
    var moved :=
      if IsLVG(v.sc) && lvg.Some? && |lvg.value.volumeRefs| <= 1 && drive.Some?
      then ac.(location := drive.value, sc := DriveClass(s.drives[drive.value])) else ac;
    if v.healthy then moved.(size := moved.size + v.size) else moved
  }

  function LVGsAfterDeletion(s: Store, v: Volume): map<string, LVG> {
    var (drive, lvg) := DriveAndLVG(s, v);
    if !IsLVG(v.sc) || lvg.None? then s.lvgs
    else if |lvg.value.volumeRefs| > 1
    then s.lvgs[v.location := lvg.value.(volumeRefs := Without(lvg.value.volumeRefs, v.id))]
    else s.lvgs[v.location := lvg.value.(deleting := true)]
  }

  function VolumeDeleted(s: Store, id: string, a: string): Store
    requires id in s.volumes && a in s.acs
  {
    var v := s.volumes[id];
    s.(acs := s.acs[a := ACAfterDeletion(s, v, s.acs[a])],
       lvgs := LVGsAfterDeletion(s, v), volumes := s.volumes - {id})
  }

  // ---- expansion (volume_operations.go:551-657) ----

  /** ExpandVolume writes the AC, then the volume copy it was given; the second write succeeds only
      if the copy is still current. */
  function ExpandReserved(s: Store, copy: Volume, requiredBytes: int, a: string): Store
    requires a in s.acs
  {
    var ac := s.acs[a];
    if !Expandable(copy) || ac.size < requiredBytes - copy.size then s
    else
      var reserved := s.(acs := s.acs[a := ac.(size := ac.size - (requiredBytes - copy.size))]);
      if copy.id in s.volumes && s.volumes[copy.id] == copy
      then reserved.(volumes := s.volumes[copy.id := ExpandStarted(copy, requiredBytes)])
      else reserved
  }

  function ExpandSettled(s: Store, id: string, requiredBytes: int, a: string): Store
    requires id in s.volumes && a in s.acs
  {
    var v := s.volumes[id];
    var done := s.(volumes := s.volumes[id := ExpandFinished(v)]);
    if Refunds(v)
    then done.(acs := s.acs[a := s.acs[a].(size := s.acs[a].size + (requiredBytes - v.previousCapacity.value))])
    else done
  }

  // ---- node side of an LVG ----

  /** What the LVG controller makes of a new LVG on one drive: `found` says that the drive was found and is a
      physical volume now, `grouped` that the group could be created on it (lvgcontroller.go:152-170, 243-285). */
  function Built(lvg: LVG, found: bool, grouped: bool): LVG {
    lvg.(status := if found && grouped then LVGCreated else LVGFailed, locations := if found then lvg.locations else [])
  }

  // ---- node side of creation in an LVG (volumemgr.go:423-475) ----

  /** Reconcile of a Creating LVM volume: nothing, failure, or registration in the LVG followed by preparation. */
  function PreparedInLVG(s: Store, id: string, o: NodeOutcome): Store
    requires id in s.volumes
  {
    var v := s.volumes[id];
    if v.location !in s.lvgs then s.(volumes := s.volumes[id := v.(status := Failed)])
    else
      var lvg := s.lvgs[v.location];
      match lvg.status
      case LVGCreating => s
      case LVGFailed => s.(volumes := s.volumes[id := v.(status := Failed)])
      case LVGCreated =>
        s.(lvgs := if id in lvg.volumeRefs then s.lvgs
                   else s.lvgs[v.location := lvg.(volumeRefs := lvg.volumeRefs + [id])],
           volumes := s.volumes[id := Reconciled(v, o)])
  }
}
