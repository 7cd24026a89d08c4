// The custom resources and small helper predicates shared by every component.

module Types {

  datatype Option<+T> = None | Some(value: T)

  /** CSI storage classes, api/v1/constants.go:118-125. */
  datatype StorageClass = Any | HDD | SSD | NVMe | HDDLVG | SSDLVG | NVMeLVG | SysLVG

  predicate IsLVG(sc: StorageClass) {
    sc.HDDLVG? || sc.SSDLVG? || sc.NVMeLVG? || sc.SysLVG?
  }

  /** The classes for which the planner keeps a single, size-ordered list of drives. */
  predicate IsPlain(sc: StorageClass) {
    sc.HDD? || sc.SSD? || sc.NVMe?
  }

  /** AvailableCapacity. `group` is the storage-group label, `tainted` the NoSchedule drive taint. */
  datatype AC = AC(name: string, nodeId: string, size: int, sc: StorageClass, location: string,
                   group: Option<string>, tainted: bool)

  /** Go's map lookup yields "" for a missing label. */
  function LabelOf(l: Option<string>): string {
    match l
    case Some(v) => v
    case None => ""
  }

  datatype CapacityRequest = CapacityRequest(name: string, size: nat, sc: StorageClass, group: string)

  /** A volume handed to the planner. The planner keys its plan by object identity, which `id`
      stands for: the position of the request the volume was built from. */
  datatype Vol = Vol(id: nat, req: CapacityRequest)

  datatype ReservationStatus = Requested | Reserved | Rejected

  datatype ReservationRequest = ReservationRequest(cap: CapacityRequest, reservations: seq<string>)

  /** AvailableCapacityReservation. */
  datatype ACR = ACR(name: string, namespace: string, status: ReservationStatus,
                     requests: seq<ReservationRequest>, requested: seq<string>, reserved: seq<string>)

  // ---- volumes, volume groups, drives ----

  datatype Status =
    | Creating | Created | VolumeReady | Published | Removing | Removed | Failed | Resizing | Resized

  /** Volume. `onLVM` is LocationType LVM (else DRIVE); `missing` is operational status MISSING;
      the last two fields are the expansion annotations. */
  datatype Volume = Volume(id: string, nodeId: string, size: int, location: string, sc: StorageClass,
                           onLVM: bool, status: Status, healthy: bool, missing: bool, owners: seq<string>,
                           previousStatus: Option<Status>, previousCapacity: Option<int>)

  datatype LVGStatus = LVGCreating | LVGCreated | LVGFailed

  /** LogicalVolumeGroup. `deleting` is the deletion timestamp: the finalizer of the LVG controller keeps the CR. */
  datatype LVG = LVG(name: string, node: string, locations: seq<string>, size: int, status: LVGStatus,
                     volumeRefs: seq<string>, deleting: bool)

  datatype DriveType = DriveHDD | DriveSSD | DriveNVMe | DriveOther

  /** ConvertDriveTypeToStorageClass. */
  function DriveClass(t: DriveType): StorageClass {
    match t
    case DriveHDD => HDD
    case DriveSSD => SSD
    case DriveNVMe => NVMe
    case DriveOther => Any
  }

  /** Every class is the class of a drive type or an LVG class. */
  lemma ClassIsDriveOrLVG(sc: StorageClass)
    ensures IsLVG(sc) <==> forall t :: DriveClass(t) != sc
    ensures IsPlain(sc) <==> !IsLVG(sc) && !sc.Any?
  {
    assert DriveClass(DriveHDD) == HDD && DriveClass(DriveSSD) == SSD && DriveClass(DriveNVMe) == NVMe && DriveClass(DriveOther) == Any;
  }

  datatype Health = Good | Suspect | Bad | Unknown

  /** Where a drive is on its way out of the system. */
  datatype Usage = DriveInUse | DriveReleasing | DriveReleased | DriveRemoving | DriveRemoved | DriveFailed

  ghost predicate UniqueNames(acs: seq<AC>) {
    forall i, j :: 0 <= i < j < |acs| ==> acs[i].name != acs[j].name
  }

  predicate Distinct<T(==)>(s: seq<T>) {
    forall i, j :: 0 <= i < j < |s| ==> s[i] != s[j]
  }

  ghost predicate UniqueRequests(rs: seq<ReservationRequest>) {
    forall i, j :: 0 <= i < j < |rs| ==> rs[i].cap.name != rs[j].cap.name
  }
}
