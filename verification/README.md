# Capacity reservation and allocation in csi-baremetal, verified

This project models, in Dafny, how csi-baremetal decides which disk a volume gets, keeps that
promise across pods, and accounts for every byte afterwards. Around that core it models the state
machines that move volumes, drives and storage groups. `dafny verify dfyconfig.toml` checks it all.

## What is modelled

- **The planner** (`Ordering`, `Accounting`, `NodeCapacity`, `Greedy`, `AnyClass`, `Overcommit`, `Planner`). A node's planner
  state is kept on the heap as in the program: one `ReservedCapacity` object may sit under several ACs, and a
  charge through one of them is seen through all. The heap code is proved to follow first fit on the
  recorded sizes; first fit is proved to choose the least admissible AC, to be complete for drive
  requests under an exact condition, and to over-commit an LVG by an exact, attained amount.
- **The reservation handshake** (`Extender`, `Reservation`, `Confirmation`, `Protocol`, `Promises`, `DriveUse`, `Bridge`,
  `ReadRace`, `DuplicateNames`, `Release`). Scheduler extender, reservation controller and CreateVolume are steps over the
  ACs and ACRs, one for each read and each write. The controller reads an ACR, then the ACs, then the ACRs, and
  writes its decision only if the ACR has not changed; CreateVolume reads an ACR and an AC, creates the Volume CR, writes the AC
  and releases; everything else may happen between any two of these. Exclusivity, the hand-off to CreateVolume and
  the sequential mode hold in every state of every run, and a promise is broken under an exact condition.
- **Byte accounting** (`Align`, `Store`, `VolumeOps`, `LVGController`, `Ledger`, `Conservation`, `Stranding`). Every volume
  operation is a method over the API objects with a stated effect on the whole store. Each step's effect on an
  LVG's accounts is exact, and conservation over runs holds under conditions that are shown to be necessary.
- **The volume status machine** (`Lifecycle`, `NodeService`), the part of the CSI specification's "Volume
  Lifecycle" and "ControllerExpandVolume" that spans controller and node.
- **Drive removal** (`DriveRemoval`, `DriveLife`, `NodeRelease`): the drive controller and the node's writes to the drive,
  first as methods, then as a machine over drive, volumes and annotations whose whole runs are reasoned about.
- **Storage groups and discovery** (`StorageGroup`, `Discovery`, with the lookups of `CRHelper`).

## Where the plain claim fails

Some claims one would like to make are false of the code. Each has a lemma that shows it and, unless it is said
otherwise, one that says exactly when the claim holds.

- An ACR that uses one request name twice gives both requests the same drive
  (`DuplicateNames.OneDriveForBoth`): drive requests of a confirmed ACR share an AC if and only if they
  share a name (`Confirmation.DriveRequestsShareIffSameName`).
- A confirmed drive request may name a drive without room. The reservation controller reads ACs before ACRs
  (pkg/base/capacityplanner/planner.go:133-142), and a volume may be created in between (`ReadRace.CreatedBetweenReads`); or a
  creation is under way while its ACR is sent again (`ReadRace.CreatedAfterResend`). These two, and the creation of the
  promised volume itself, are all the ways there are: `Promises.PromiseBreaksExactly` is an if and only if over the
  steps of the run.
- Two volumes may end up on one drive: in the two cases above; after an AC update that fails and is only
  logged (pkg/common/volume_operations.go:250-252), because the used drive then keeps its size (`ReadRace.UpdateLost`), or
  that comes only after the ACs were read (`ReadRace.PendingWhenRead`); and when a call ends before it releases and
  another one serves the same request (`ReadRace.NeverReleased`). These are all the ways there are:
  `DriveUse.DriveIsTakenExactly` and, over whole runs, `DriveUse.DrivesAreExclusiveExactly` are if and only if.
- For storage class ANY first fit is not complete (`AnyClass.AnyIsNotComplete`). It is complete for every list of requests if
  and only if in each storage group the free ACs ascend in size along the order of the classes
  (`AnyClass.AnyIsCompleteExactly`, on a node `Planner.AnyNodeIsCompleteExactly`).
- For LVG first fit is not complete either (`Overcommit.LVGIsNotComplete`); the question is bin packing, and no exact
  condition is given.
- Reservations that record raw sizes over-commit an LVG, by any amount (`Overcommit.OvercommitIsReached`). A reserved AC can be
  over-committed if and only if it was reserved for LVG, its record leaves an extent, and the extents it leaves are more than
  the reservations, rounded up one by one, really leave (`Overcommit.OvercommitExactly`).
- The refund after a failed expansion uses the caller's byte count. A second ControllerExpandVolume call
  with another size refunds too much (`Conservation.SecondCallerOverRefunds`); the refund is right if and only
  if the count is the reserved size (`Ledger.StepBalancesIffClean`).
- An AC update whose volume update then meets a conflict loses the reserved bytes: the reservation is
  clean if and only if the copy of the volume was current or the AC was too small
  (`Ledger.CleanIffNoEffect`).
- The AC update after a volume creation may fail and is only logged; an LVG is then over-counted by the size of the
  volume (`Ledger.PlacedEffect`).
- A deletion drops the LVG when at most one volume is registered in it, although a volume that is
  still being created is not registered yet. The LVG itself stays while a volume lies on it, but its AC goes back to the drive,
  short by exactly what the remaining volumes hold (`Ledger.DropReturnsTheRest`). Such a volume can never be
  deleted (`Stranding.StrandedForGood`), and its drive is offered to others (`Stranding.DroppedUnderAVolume`). A volume is
  stranded, and a drive offered under a volume of its LVG, if and only if such a deletion came before
  (`Stranding.StrandedExactly`, `Stranding.OfferedUnderExactly`).
- Staging a volume whose expansion failed, before the controller has finished the expansion, hides the
  failure and leaves the refund owed (`Lifecycle.RestageHidesFailure`). An expansion is resolved if and only if that does not
  happen (`Lifecycle.ExpansionResolvesIff`).
- Owners do not say that a volume is published; exactly four kinds of step make the two disagree
  (`Lifecycle.OwnersOutlivePublishedExactly`).
- A drive that failed to be released is RELEASING again when another of its volumes is released
  (`DriveLife.FailureIsForgotten`). A drive moves backwards if and only if an operator takes it back or such a release is
  written late (`DriveLife.BackwardsExactly`).
- The planner checks an LVG request against the raw drive, the conversion then takes the metadata off, so
  an AC can go below zero: if and only if the volume exceeds the usable size
  (`Conservation.ConversionOverdraws`).
- Discovery settles after one pass if and only if drives are reported under the node ID of the manager
  (`Discovery.SecondPassIsIdleIff`).
- AlignSizeByPE rounds a negative size that is not a multiple one extent too high
  (`Align.AlignPEIsLeastExactly`).

## Assumptions

- The Kubernetes API is a set of maps with atomic reads and writes, successful except where a failure is named. An update
  with an old copy fails; resource versions are modelled by comparing the object. A deletion goes by name.
- In the handshake and in the life of a drive, single reads and writes interleave freely, except that the list of ACs or ACRs is
  read at once and that the drive controller reads a drive and what lies on it at once. In the byte accounts a
  volume operation is one step: the controller makes each under its request lock (pkg/controller/controller.go:292-320, 450-470).
- One reservation worker, and one CreateVolume call at a time: the controller holds its request lock across the call
  (pkg/controller/controller.go:233-246).
- AC names are unique and never reused; requested nodes have distinct IDs where the
  completeness of a plan is stated; request names are distinct within an ACR where exclusivity is stated.
- Sizes of requests and volumes are non-negative, and no sum overflows 64 bits.
- Locations are compared exactly; the program ignores upper and lower case in two lookups.
- An AC, an LVG and a drive are found at one location each: ACs have distinct locations, an LVG has its own
  AC and its own first drive unless its deletion is requested, and LVG names are not drive names (`Ledger.Shape`,
  `StorageGroups.Consistent`). In the byte accounts this is kept by every step. Drive removal (`CRHelper.OneLVGEach`) speaks of drives
  with one LVG, deleted ones included: a drive that is converted again while its deleted LVG lingers is outside it.
- The LVG controller has put its finalizer on an LVG before a volume of it is deleted; it does so in its first reconcile,
  before it builds the LVG.
- A reported drive without a serial number never had a CR (`Discovery.UniqueIds`, kept by every pass); drives with one are
  reported once.
- A volume is created with the size and class of its request, under an ID and an LVG name that are new.

## Model

| member | source | states |
|---|---|---|
| `Align.GoMod` | pkg/base/capacityplanner/common.go:34-34 | Go's remainder: sign of the dividend, smaller than the divisor, and the rest is a multiple of it |
| `Align.AlignPEIsLeastExactly` | pkg/base/capacityplanner/common.go:33-40 | AlignSizeByPE is the least multiple of the extent not below the size, exactly for sizes that are non-negative or already multiples |
| `Align.AlignPEMonotone` | pkg/base/capacityplanner/common.go:33-40 | rounding up to extents keeps the order of sizes |
| `Align.AlignPEFixpoint` | pkg/base/capacityplanner/common.go:33-40 | rounding twice is rounding once, and multiples are left alone |
| `Align.SubtractMetadataIsGreatest` | pkg/base/capacityplanner/common.go:52-59 | the usable size of a drive is the greatest multiple of the extent that leaves the LVM metadata its mebibyte |
| `Align.SizeUnitRoundTrip` | pkg/base/util/convert.go:74-92 | ToSizeUnit loses exactly the remainder: converting back gives the value less what was lost, nothing being lost iff the unit divides |
| `Align.AlignedSizeIsWholeMiB` | pkg/base/util/convert.go:74-84 | an extent-aligned volume size is a whole number of MiB, so the logical volume holds exactly the accounted bytes |
| `Types.ClassIsDriveOrLVG` | pkg/base/util/common.go:80-117 | every storage class is the class of a drive type or an LVG class, never both |
| `Ordering.SortACs` | pkg/base/capacityplanner/node_capacity.go:84-96 | the sorted list has the same ACs in strictly ascending (size, name) order |
| `Ordering.StrLessIsLexicographic` | pkg/base/capacityplanner/node_capacity.go:84-96 | names are compared as Go compares strings: by the first character that differs, a prefix coming first |
| `Ordering.SortedArrangementUnique` | pkg/base/capacityplanner/node_capacity.go:84-96 | there is only one such order, so the choice of an AC does not depend on the order of the AC list |
| `Ordering.OrderForIsOrder` | pkg/base/capacityplanner/node_capacity.go:98-114 | the candidate list of a class holds exactly the ACs usable for it, by class rank, then size, then name |
| `Ordering.BeforeMeans` | pkg/base/capacityplanner/node_capacity.go:98-114 | a request tries its own class first, ANY then HDD, SSD and NVMe in turn; within a class the smaller AC, of equally big ones the smaller name |
| `NodeCapacityModel.Charge` | pkg/base/capacityplanner/node_capacity.go:129-136 | adding a request to the shared record of an AC raises every AC that shares the record and creates a record where there was none |
| `NodeCapacityModel.BuildReservedACs` | pkg/base/capacityplanner/node_capacity.go:118-138 | whatever records are shared, each AC is charged at least the sum of all reserved requests naming it; exactly that sum when each request names at most one AC |
| `NodeCapacityModel.EligibleACs` | pkg/base/capacityplanner/node_capacity.go:71-82 | exactly the untainted ACs of the node |
| `NodeCapacityModel.BuildACMap` | pkg/base/capacityplanner/node_capacity.go:193-199 | every AC under its own name |
| `NodeCapacityModel.BuildClassLists` | pkg/base/capacityplanner/node_capacity.go:98-104 | one list per class, in sorted order |
| `NodeCapacityModel.BuildOrder` | pkg/base/capacityplanner/node_capacity.go:98-114 | the lists after ANY and the LVG classes took over the drive classes are the candidate lists of Ordering |
| `NodeCapacityModel.NewNodeCapacity` | pkg/base/capacityplanner/node_capacity.go:65-146 | the planner state describes the node and covers every reserved request; null exactly without ACs |
| `NodeCapacityModel.NodeCapacity.SelectACForVolume` | pkg/base/capacityplanner/node_capacity.go:148-191 | returns what first fit returns on the recorded sizes and books the choice in the shared records, touching nothing else |
| `Accounting.SelectIsLeast` | pkg/base/capacityplanner/node_capacity.go:148-191 | the chosen AC is the least admissible one by class rank, size and name; none is chosen exactly when none is admissible |
| `Greedy.PickFits` | pkg/base/capacityplanner/node_capacity.go:148-191 | every AC chosen in a run is of a usable class, big enough and in the requested storage group |
| `Greedy.PicksAreExclusive` | pkg/base/capacityplanner/node_capacity.go:148-191 | in a run a drive request never shares its AC, neither with a reservation made before nor with another request; LVG requests share only with LVG |
| `Greedy.ExchangeStep` | pkg/base/capacityplanner/planner.go:159-169 | giving the smallest request the smallest AC that fits loses no solution |
| `Greedy.GreedyIsComplete` | pkg/base/capacityplanner/planner.go:189-211 | for HDD, SSD and NVMe requests in size order, and for ANY requests where the free ACs ascend in size along the class order, a node run completes if and only if some one-to-one assignment to the free drives exists |
| `AnyClass.RunExists` | pkg/base/capacityplanner/planner.go:189-211 | from any book a run of the requests ends, completed or stuck |
| `AnyClass.AnyIsCompleteExactly` | pkg/base/capacityplanner/node_capacity.go:106-109 | every size-sorted list of ANY requests is placed whenever it can be, if and only if in each storage group the free ACs ascend in size along the order of the classes |
| `AnyClass.DefeatedBy` | pkg/base/capacityplanner/node_capacity.go:106-109 | any larger AC tried before a smaller one of its group yields a list that can be placed and is not |
| `AnyClass.AnyIsNotComplete` | pkg/base/capacityplanner/node_capacity.go:106-109 | the smallest failing input: HDD of 10, SSD of 5, requests of 5 and 10 |
| `Overcommit.OvercommitLaw` | pkg/base/capacityplanner/node_capacity.go:148-186 | after any selection run the extents promised from an LVG AC exceed it at most by what its recorded size hides: the aligned total less the recorded size rounded up; an AC the run is the first to reserve is never exceeded |
| `Overcommit.TotalsHide` | pkg/base/capacityplanner/node_capacity.go:118-138 | what a record hides: each request that is not for whole extents at most all but one byte of an extent, the others nothing |
| `Overcommit.OvercommitBound` | pkg/base/capacityplanner/node_capacity.go:148-186 | with k such requests recorded, the excess is at most k extents less k bytes rounded up, hence none for k up to 1 |
| `Overcommit.OvercommitExactly` | pkg/base/capacityplanner/node_capacity.go:164-184 | a reserved AC can be over-committed by a further LVG request if and only if it was reserved for LVG, the recorded size leaves an extent, and the whole extents it leaves, together with the reservations rounded up one by one, exceed the AC |
| `Overcommit.OvercommitOfWholeExtents` | pkg/base/capacityplanner/node_capacity.go:164-184 | for an AC of whole extents that says: the recorded size rounded up is less than the AC and less than the reservations rounded up one by one |
| `Overcommit.OvercommitIsReached` | pkg/base/capacityplanner/node_capacity.go:164-184 | the bound is attained for every k, by k one-byte reservations and one more one-byte volume |
| `Overcommit.LVGIsNotComplete` | pkg/base/capacityplanner/planner.go:159-169 | LVGs of two and three extents could hold requests of one, two and two, and a run in size order gets stuck on them |
| `Planner.SortVolumes` | pkg/base/capacityplanner/planner.go:159-169 | the volume array is permuted into LVG first, then ascending size |
| `Planner.SelectCapacityOnNode` | pkg/base/capacityplanner/planner.go:189-211 | all volumes are placed by one selection run, or the run is stuck at the first volume without an AC |
| `Planner.IsLVGCapacityReserved` | pkg/base/capacityplanner/planner.go:215-250 | true exactly when a reserved ACR asks for an LVG class that one of the volumes asks for |
| `Planner.NodeIsComplete` | pkg/base/capacityplanner/planner.go:171-178 | a run from a fresh book completes exactly when the free drives of the node allow a placement, for HDD, SSD, NVMe and, where the free ACs ascend, for ANY |
| `Planner.AnyNodeIsCompleteExactly` | pkg/base/capacityplanner/planner.go:171-178 | on a node that holds for every list of ANY requests if and only if its free ACs ascend in each storage group |
| `Planner.PlaceOnNode` | pkg/base/capacityplanner/planner.go:171-178 | the node is planned from a book that covers all reservations, and for predictable lists planned exactly when feasible |
| `Planner.CapacityManager.ReadNodes` | pkg/base/capacityplanner/planner.go:151-154 | one separate, fresh book per requested node |
| `Planner.CapacityManager.SelectOnNodes` | pkg/base/capacityplanner/planner.go:171-178 | the plan holds exactly the nodes that can take all volumes (for predictable lists), planning one node leaves the books of the others alone |
| `Planner.CapacityManager.ConvertCapacityToMap` | pkg/base/capacityplanner/planner.go:252-258 | for every node exactly its untainted ACs, each under its own name |
| `Planner.CapacityManager.PlanVolumesPlacing` | pkg/base/capacityplanner/planner.go:130-187 | retry exactly in sequential mode with a reserved LVG class; otherwise every planned node was requested, every AC of its plan is an untainted AC of that node, big enough and in the storage group, on every other node the selection got stuck, and for HDD, SSD, NVMe - for ANY where the free ACs ascend - a node is planned if and only if a placement exists; the capacity that goes with the plan is that of each requested node |
| `Reservation.GetACsForVolumes` | pkg/base/capacityplanner/placing_plan.go:84-92 | each volume gets its AC on every planned node, one entry per node in visiting order |
| `Reservation.NameToCapacity` | pkg/base/capacityplanner/helpers.go:59-62 | every request name is mapped to the ACs of some volume of that name |
| `Reservation.UpdateReservation` | pkg/base/capacityplanner/helpers.go:54-82 | the ACR becomes RESERVED on the given nodes, each request lists the ACs of a volume of its name, and requests of one name list the same ACs |
| `Reservation.MatchNodes` | pkg/crcontrollers/reservation/reservationcontroller.go:135-144 | the requested nodes that were planned, in request order |
| `Reservation.Decide` | pkg/crcontrollers/reservation/reservationcontroller.go:101-165 | ignored, requeued, confirmed from a plan, or rejected, each under its condition; on every requested node that is not reserved the selection got stuck, and where the list is predictable exactly the feasible nodes are reserved |
| `Confirmation.FilledFromOwnVolume` | pkg/base/capacityplanner/helpers.go:59-70 | with distinct request names each request is filled from its own volume |
| `Confirmation.NamedACSuits` | pkg/base/capacityplanner/helpers.go:59-75 | each AC named by a confirmed request is an untainted AC of one planned node, of a usable class, big enough and in the right group |
| `Confirmation.ConfirmedInside` | pkg/base/capacityplanner/helpers.go:59-75 | two requests of one confirmed ACR share an AC only if both are LVG requests |
| `Confirmation.ConfirmedAgainstEarlier` | pkg/base/capacityplanner/node_capacity.go:148-191 | a confirmed ACR names an AC reserved earlier only for LVG on both sides |
| `Confirmation.ConfirmNamesOneACPerNode` | pkg/base/capacityplanner/placing_plan.go:84-92 | the reserved nodes were requested and each request names exactly one AC on each of them |
| `Confirmation.DriveRequestsShareIffSameName` | pkg/base/capacityplanner/helpers.go:59-70 | two drive requests of a confirmed ACR share an AC if and only if they carry the same name |
| `DuplicateNames.OneDriveForBoth` | pkg/base/capacityplanner/helpers.go:59-70 | the failing input: an ACR that lists one request name twice, on a node with two free drives, is confirmed with one drive for both requests |
| `SchedulerExtender.Extender.PrepareListOfRequestedNodes` | pkg/scheduler/extender/extender.go:489-505 | the IDs of the nodes that have one |
| `SchedulerExtender.Extender.CreateReservation` | pkg/scheduler/extender/extender.go:451-487 | a REQUESTED ACR with nothing reserved, or nothing at all when no node has an ID |
| `SchedulerExtender.Extender.ResendReservationRequest` | pkg/scheduler/extender/extender.go:557-575 | the ACR is REQUESTED again with the new nodes and without promised ACs; nothing is written when no node has an ID |
| `SchedulerExtender.Extender.HandleReservation` | pkg/scheduler/extender/extender.go:507-555 | of a confirmed ACR the nodes with an ID are split into reserved and failed; it is sent again exactly when rejected or without a match |
| `SchedulerExtender.Extender.Filter` | pkg/scheduler/extender/extender.go:391-440 | no storage: all nodes; no ACR: a request is made; matched nodes come only from a RESERVED ACR; otherwise the ACR waits or is sent again |
| `SchedulerExtender.NodePrioritize` | pkg/scheduler/extender/extender.go:636-649 | the rank of a node is the largest volume count less its own |
| `SchedulerExtender.Score` | pkg/scheduler/extender/extender.go:577-620 | each node with an ID scores the largest volume count of any node less its own, nodes without volumes the most |
| `SchedulerExtender.ScoreOf` | pkg/scheduler/extender/extender.go:577-620 | a node is scored exactly if it has an ID |
| `SchedulerExtender.ScoresRank` | pkg/scheduler/extender/extender.go:622-649 | of two nodes the one with fewer volumes scores higher, by the difference, and none higher than one without volumes |
| `Protocol.FirstClassSpeaksForAll` | pkg/base/capacityplanner/node_capacity.go:123-137 | under exclusivity the class recorded first for an AC tells whether all requests naming it are LVG requests |
| `Protocol.ConfirmKeepsExclusive` | pkg/crcontrollers/reservation/reservationcontroller.go:101-165 | a confirmation written from an old snapshot keeps exclusivity, because every standing promise is in the snapshot |
| `Protocol.ConfirmKeepsSequential` | pkg/base/capacityplanner/planner.go:215-250 | a confirmation in sequential mode keeps the LVG classes of reserved ACRs disjoint |
| `Protocol.StepKeepsInv` | pkg/crcontrollers/reservation/reservationcontroller.go:101-165 | every single read and write of extender, reservation worker and CreateVolume, and every capacity change, keeps the invariant of the handshake |
| `Protocol.RunKeepsInv` | pkg/crcontrollers/reservation/reservationcontroller.go:79-165 | so every state of every run satisfies it |
| `Protocol.ReservationsAreExclusive` | pkg/base/capacityplanner/node_capacity.go:118-191 | in every reachable state an AC named by a reserved drive request is named by no other reserved request, and an AC named twice only by LVG requests |
| `Protocol.LVGClassesAreSeparate` | pkg/base/capacityplanner/planner.go:144-148 | with sequentialLVGReservation two reserved ACRs never ask for the same LVG class, in any reachable state |
| `Protocol.FindStops` | pkg/common/volume_operations.go:169-181 | the AC search succeeds at the k-th name exactly when no name before it is missing |
| `Protocol.MatchedNodeHasItsAC` | pkg/common/volume_operations.go:169-186 | in every reachable state, for every node the extender returns and every request, the search of CreateVolume finds the one AC named on that node exactly as long as the ACs it passes exist |
| `Promises.PassExists` | pkg/crcontrollers/reservation/reservationcontroller.go:101-165 | every decision the worker writes ends one pass: ACs read, then ACRs read, nothing else by the worker in between |
| `Promises.EveryPromiseWasMade` | pkg/crcontrollers/reservation/reservationcontroller.go:101-165 | every promise that stands in a reachable state was written by such a pass and has stood since |
| `Promises.NamedDuringPass` | pkg/base/capacityplanner/node_capacity.go:118-191 | from the moment the ACRs are read to the write, an AC that is being promised is named only for LVG, by LVG requests on both sides |
| `Promises.HeldWhenRead` | pkg/base/capacityplanner/node_capacity.go:71-191 | when the ACs were read, the promised one was untainted, in the storage group of the request, of a usable class and had room |
| `Promises.LateWriter` | pkg/common/volume_operations.go:153-259 | a creation that writes a promised drive after the ACRs were read holds an outdated ACR or serves the promise itself |
| `Promises.PromiseBreaksExactly` | pkg/common/volume_operations.go:153-259 | a promised drive has lost its room if and only if a creation wrote its AC between the two reads of the worker, or later with an ACR that had been sent again, rewritten or deleted when the ACRs were read, or as the creation of the promised volume itself, and nothing has given the room back |
| `Promises.PromisesAreKept` | pkg/crcontrollers/reservation/reservationcontroller.go:101-165 | in a run without the first two, a promised drive keeps its room until its own volume takes it |
| `DriveUse.PaidIsUsedUp` | pkg/common/volume_operations.go:228-252 | once the call that placed a volume on a drive has written the AC, the drive offers nothing as long as the volume is there |
| `DriveUse.LatePlacer` | pkg/common/volume_operations.go:153-259 | a volume that is placed on a promised drive after the ACRs were read comes from a call with an outdated ACR or from an earlier call for the promised request |
| `DriveUse.OwnCallReleased` | pkg/common/volume_operations.go:338-353 | once the volume of a request is placed and the call ends, the promise no longer stands |
| `DriveUse.DriveIsTakenExactly` | pkg/common/volume_operations.go:153-259 | as long as every drive was free when it was taken: a volume is on the drive that a call is about to take if and only if an earlier step put one there that nothing has removed, and its call had not written the AC when the ACs were read, or it came between the two reads or later from a call whose ACR had changed, or it served the same request and was not released |
| `DriveUse.DrivesAreExclusiveExactly` | pkg/common/volume_operations.go:153-259 | over any run no drive is taken by two volumes, or by a volume and a volume group, if and only if no step takes a drive given away before in one of these ways |
| `DriveUse.OneVolumePerDrive` | pkg/common/volume_operations.go:153-259 | none of this happens in a run in which promises are undisturbed and each call that creates its Volume CR also writes the AC and releases: there no two volumes take one drive, and a used drive offers nothing |
| `ReadRace.CreatedBetweenReads` | pkg/base/capacityplanner/planner.go:133-142 | a run from an empty cluster in which a volume created between the two reads leaves a reserved request on a drive without a byte, and two volumes on that drive |
| `ReadRace.CreatedAfterResend` | pkg/scheduler/extender/extender.go:547-575 | a run in which the ACR of a creation under way is sent again, its drive promised to another pod, and then taken |
| `ReadRace.UpdateLost` | pkg/common/volume_operations.go:250-252 | a run in which a failed AC update leaves a used drive its size, and two volumes end up on it |
| `ReadRace.PendingWhenRead` | pkg/common/volume_operations.go:237-252 | a run in which the Volume CR is there when the ACs are read but the AC is written only afterwards, and two volumes end up on the drive |
| `ReadRace.NeverReleased` | pkg/common/volume_operations.go:253-256 | a run in which a call ends after the Volume CR is created, and another call for the same request puts a second volume on the drive |
| `Bridge.RequestIsEvent` | pkg/scheduler/extender/extender.go:451-487 | what createReservation writes is a request step of the handshake |
| `Bridge.ResendIsEvent` | pkg/scheduler/extender/extender.go:507-575 | what a rejected or unmatched ACR turns into is a resend step |
| `Bridge.CreationIsRun` | pkg/common/volume_operations.go:153-259 | a successful CreateVolume is the run of its reads and writes - reservation, AC, conversion, Volume CR, AC, release - and ends in the state proved for the method |
| `Bridge.CreationTakesRequired` | pkg/common/volume_operations.go:205-249 | the volume of an LVG request has exactly the bytes the planner requires for it, the AC loses exactly these, and lvcreate gets them in whole MiB |
| `Bridge.AlignedTotalIsTaken` | pkg/base/capacityplanner/node_capacity.go:118-186 | the rounded total in the over-commitment laws is what the volumes of all requests naming an AC take from it |
| `Bridge.ConversionSteps` | pkg/common/ac_operations.go:72-128 | so is its part up to the conversion, after which a failed read of the PVC ends the call |
| `Bridge.OtherStepsAreEvents` | pkg/common/volume_operations.go:400-657 | deleting, expanding, settling and all node steps never take capacity away from a drive and give it back only with the volume that took it |
| `CRHelper.GetACByLocation` | pkg/base/k8s/cr_helper.go:85-106 | an AC at the location, none exactly when there is none |
| `CRHelper.GetLVGByDrive` | pkg/base/k8s/cr_helper.go:183-199 | an LVG whose first location is the drive, none exactly when there is none |
| `CRHelper.GetVolumesByLocation` | pkg/base/k8s/cr_helper.go:142-178 | the volumes at the LVG of the drive or at the drive itself; empty exactly when nothing lies there |
| `CRHelper.VolumesAtAre` | pkg/base/k8s/cr_helper.go:164-173 | the collected volumes are at the location, and all of them if none is of type DRIVE |
| `VolumeOps.ContainsString` | pkg/base/util/common.go:119-126 | membership |
| `VolumeOps.RemoveString` | pkg/base/util/common.go:131-139 | all occurrences are dropped, the rest keeps its order |
| `VolumeOps.ShiftOut` | pkg/base/capacityplanner/helpers.go:97-99 | shifting the array in place removes exactly the element at the index |
| `VolumeOps.VolumeOperations.ReleaseReservation` | pkg/base/capacityplanner/helpers.go:85-110 | the ACR loses exactly that request, or goes with its last one |
| `VolumeOps.VolumeOperations.GetVolumeReservation` | pkg/common/volume_operations.go:296-336 | a RESERVED ACR of the namespace and its first request of the name; none exactly when no ACR holds such a request |
| `VolumeOps.VolumeOperations.SearchCapacity` | pkg/common/volume_operations.go:169-181 | the first AC on the node, or the first name that cannot be read |
| `VolumeOps.VolumeOperations.RecreateACToLVGSC` | pkg/common/ac_operations.go:59-128 | one LVG over the drives with their usable sizes added up, and the first AC moved onto it |
| `VolumeOps.VolumeOperations.RecordVolume` | pkg/common/volume_operations.go:197-252 | the volume is recorded as Creating at the place of the AC; on an LVG it takes the whole extents it needs, of a drive everything, and the AC loses exactly that if the write succeeds |
| `VolumeOps.VolumeOperations.CreateOn` | pkg/common/volume_operations.go:186-252 | the same with the conversion before it: of a drive that becomes an LVG the metadata goes off first |
| `VolumeOps.VolumeOperations.HandleVolumeCreation` | pkg/common/volume_operations.go:153-259 | each of the outcomes under its condition; on success volume, AC, LVG and ACR change as one accounted step, also when writing the AC fails, and an LVM volume has the least whole extents that hold its bytes |
| `VolumeOps.VolumeOperations.DeleteVolume` | pkg/common/volume_operations.go:355-395 | Created becomes Removing; the caller may go on exactly for Created, Removing and Removed |
| `VolumeOps.VolumeOperations.UpdateCRsAfterVolumeDeletion` | pkg/common/volume_operations.go:400-478 | succeeds exactly when AC and drive or LVG are found; then the AC is refunded and, if at most one volume is registered in the LVG, moved back to the drive, the deletion of the LVG is requested, and the volume is gone |
| `VolumeOps.VolumeOperations.ExpandVolume` | pkg/common/volume_operations.go:551-599 | the bytes are taken from the AC if it has them, and the volume starts resizing only if the copy was current |
| `VolumeOps.VolumeOperations.UpdateCRsAfterVolumeExpansion` | pkg/common/volume_operations.go:604-657 | success restores the status, failure the size and refunds the AC, anything else changes nothing |
| `Release.RemovalKeepsOthers` | pkg/base/capacityplanner/helpers.go:97-103 | removing the request found by name keeps the others in order |
| `Release.AnyOrderReleasesAll` | pkg/base/capacityplanner/helpers.go:85-110 | releasing distinctly named requests in any order: after k releases exactly the other requests remain in order, the n-th deletes the ACR, other ACRs never change |
| `Release.OtherHolderKeepsPromise` | pkg/common/volume_operations.go:296-336 | when two reserved ACRs hold a request of one name, the one that a release does not find keeps its promise through any releases until its own |
| `Release.ReleasedNoLonger` | pkg/base/capacityplanner/helpers.go:85-110 | a release takes the name off the ACR it finds |
| `Ledger.NewGroup` | pkg/common/ac_operations.go:72-105 | a converted drive starts balanced: its AC offers exactly the size recorded in the LVG |
| `LVGControllers.Controller.CreateSystemLVG` | pkg/crcontrollers/lvg/lvgcontroller.go:243-285 | the drives that could be made physical volumes, in order; it succeeds exactly when there is one and the group could be created |
| `LVGControllers.Controller.HandlerLVGCreation` | pkg/crcontrollers/lvg/lvgcontroller.go:152-170 | the LVG is Created or Failed and keeps exactly those drives |
| `LVGControllers.Controller.HandleLVGRemoving` | pkg/crcontrollers/lvg/lvgcontroller.go:173-208 | the CR goes exactly when no volume lies on the LVG that is not being deleted itself, and the artifacts are gone |
| `LVGControllers.Controller.Reconcile` | pkg/crcontrollers/lvg/lvgcontroller.go:84-119 | for an LVG of one drive: the build or the removal that the byte accounts know as an event, or nothing |
| `Ledger.DropReturnsTheRest` | pkg/common/volume_operations.go:439-476 | a deletion that drops a balanced LVG returns the AC to the drive with the class of the drive, short by exactly what the volumes hold that are still on the LVG |
| `Ledger.LastVolumeReturnsTheDrive` | pkg/common/volume_operations.go:439-476 | if none is, the AC offers exactly the LVG size |
| `Ledger.PlacedEffect` | pkg/common/volume_operations.go:228-252 | a new volume takes from the AC of its LVG exactly what it holds; when the AC update fails, which is only logged, the LVG is over-counted by the size of the volume |
| `Ledger.StepKeepsShape` | pkg/common/volume_operations.go:153-657 | every step leaves each AC at a place of its own, each live LVG with an AC and a drive of its own, and each LVM volume on an LVG that is there |
| `Ledger.KeptUnlessDropped` | pkg/common/volume_operations.go:439-447 | a live LVG stays live until the deletion of one of its volumes meets at most one registered volume |
| `Ledger.StepEffect` | pkg/common/volume_operations.go:188-657 | each step changes AC size plus volume sizes of an LVG by exactly its stated effect: zero, a volume whose AC was not written, a lost volume, a stale reservation, or a refund that differs from what was reserved |
| `Ledger.CleanIffNoEffect` | pkg/common/volume_operations.go:400-657 | the checkable conditions - AC written, healthy or dropping volume, current copy, refund of the reserved size - hold if and only if the step has no effect on any LVG that is live afterwards |
| `Ledger.StepBalancesIffClean` | pkg/common/volume_operations.go:400-657 | from a balanced store a step leads to a balanced store if and only if it is clean |
| `Conservation.BytesAreConserved` | pkg/common/volume_operations.go:188-657 | along every run of clean steps AC size plus volume sizes equals LVG size, for every live LVG in every state |
| `Conservation.DriftIsExact` | pkg/common/volume_operations.go:188-657 | along any run the accounts of an LVG are off by exactly the sum of the effects since it came into being |
| `Conservation.DriveComesBack` | pkg/common/volume_operations.go:439-476 | after any clean life of an LVG its AC is back on the original drive with the original class and exactly the usable size, less what volumes hold that are still on the LVG |
| `Conservation.WholeDriveRoundTrip` | pkg/common/volume_operations.go:216-249 | a drive used whole and released offers its size rounded down to MiB, and no less ever after |
| `Conservation.SecondCallerOverRefunds` | pkg/controller/controller.go:422-480 | two overlapping ControllerExpandVolume calls with different sizes over-refund the AC by exactly the difference when the expansion fails |
| `Conservation.ConversionOverdraws` | pkg/common/ac_operations.go:72-105 | the AC goes negative on its first volume if and only if the volume exceeds the usable size of the drive |
| `Stranding.StrandsExactly` | pkg/common/volume_operations.go:439-476 | a step leaves a volume on an LVG without an AC if and only if it deletes another volume of that LVG while at most one is registered in it; one of the two is then not registered |
| `Stranding.StrandedExactly` | pkg/common/volume_operations.go:439-476 | in every run a volume has no AC at its LVG if and only if such a deletion came before |
| `Stranding.StrandedForGood` | pkg/common/volume_operations.go:429-433 | a stranded volume stays where it is and is never deleted, because its AC is not found, and its LVG is never removed |
| `Stranding.OfferedUnderExactly` | pkg/common/volume_operations.go:449-455 | in every run the AC of a drive is there for others while a volume lies on an LVG made of the drive if and only if a deletion dropped that LVG under the volume |
| `Stranding.DrivesStayUnderVolumesExactly` | pkg/common/volume_operations.go:449-455 | a run never offers a drive under a volume of its LVG if and only if no deletion in it drops an LVG under a volume |
| `Stranding.DroppedUnderAVolume` | pkg/common/volume_operations.go:439-476 | a run on one drive: a volume is prepared, another created while the first is removed, the first deleted, and a third volume gets the drive under the second for itself |
| `Lifecycle.RunKeepsSound` | pkg/node/node.go:285-719 | in every run owners are duplicate-free, a published volume has one, and an expansion remembers where to return |
| `Lifecycle.StatusChangesExactly` | pkg/node/volumemgr.go:262-336 | for each status exactly the steps that lead into it: status before, call, outcome |
| `Lifecycle.OwnersChangeExactly` | pkg/node/node.go:570-715 | a pod becomes an owner by being published to, and stops being one only by an unpublish that finds it gone |
| `Lifecycle.FieldsChangeExactly` | pkg/node/node.go:331-410 | the size changes by a started or rolled-back expansion only, a volume is missing by fake-attach or as the drive says, and nothing else changes |
| `Lifecycle.RemovedIsAbsorbing` | pkg/node/volumemgr.go:295-324 | nothing but the deletion of the CR follows Removed; only the operational status may still change |
| `Lifecycle.RemovalIsEnteredFrom` | pkg/common/volume_operations.go:377-394 | Removing is entered only from Created by a delete request, Removed only by the node reconcile |
| `Lifecycle.RemovedWasCreated` | pkg/node/volumemgr.go:505-563 | every run to Removed passes Created followed by the delete and then only Removing and Removed |
| `Lifecycle.OwnersOutlivePublishedExactly` | pkg/node/node.go:331-715 | owners stay on a volume that is no longer published after exactly these steps: staging a published volume, a failed publish or unpublish, and the start of an expansion |
| `Lifecycle.ExpansionStep` | pkg/common/volume_operations.go:551-657 | one step of an expansion stays pending, finishes it, or leaves it by a restage after a failure |
| `Lifecycle.ResizingIsExclusive` | pkg/node/node.go:331-342 | stage, unstage, publish, unpublish and delete leave a resizing volume as it is, operational status aside, however often they come |
| `Lifecycle.ExitIsFinishOrRestage` | pkg/node/volumemgr.go:1280-1299 | a pending expansion is left only by a finishing call or by a restage that meets its failure |
| `Lifecycle.ExpansionResolvesIff` | pkg/node/volumemgr.go:1280-1299 | in any interleaving an expansion stays pending or is ended by a call that restores the old status with the new size or the old size, if and only if no restage meets a failure that is still pending |
| `Lifecycle.StartedExpansionResolvesIff` | pkg/common/volume_operations.go:551-599 | so from the call that starts the expansion |
| `Lifecycle.NodeDecidesExpansion` | pkg/node/volumemgr.go:1280-1299 | the finishing call that ends an expansion restores the old status with the new size exactly if the one extension on the node succeeded, and the old size exactly if it failed |
| `Lifecycle.RestageHidesFailure` | pkg/node/node.go:331-342 | after a restage that meets a pending failure the volume is VolumeReady with the new size, and the refund stays owed in any continuation if and only if no finishing call meets a failure and no expansion starts |
| `Lifecycle.RefundAtMostOnce` | pkg/common/volume_operations.go:624-656 | after a refund no later finishing call refunds again until the next expansion |
| `NodeService.CSINodeService.NodeStageVolume` | pkg/node/node.go:285-410 | makes the stage transition for every outcome of device lookup, mount and fake-attach |
| `NodeService.StageMeans` | pkg/node/node.go:331-410 | a volume is ready after a successful real mount or allowed fake mount, missing exactly when faked, failed when the mount failed and faking is not allowed |
| `NodeService.CSINodeService.NodeUnstageVolume` | pkg/node/node.go:416-503 | makes the unstage transition; succeeds also for Created, Removed and unknown volumes |
| `NodeService.CSINodeService.NodePublishVolume` | pkg/node/node.go:509-625 | makes the publish transition and records the pod once |
| `NodeService.CSINodeService.RemainingOwners` | pkg/node/node.go:682-708 | keeps exactly the owners whose pod exists and is not the one unpublished |
| `NodeService.CSINodeService.NodeUnpublishVolume` | pkg/node/node.go:631-719 | makes the unpublish transition; VolumeReady only when no owner remains |
| `NodeService.VolumeManager.HandleCreatingVolumeInLVG` | pkg/node/volumemgr.go:423-475 | waits, fails, or registers the volume in the LVG once and prepares it |
| `NodeService.VolumeManager.HandleRemovingStatus` | pkg/node/volumemgr.go:505-563 | releases the storage or, for a missing volume, only records the removal |
| `NodeService.VolumeManager.HandleExpandingStatus` | pkg/node/volumemgr.go:1280-1299 | Resized or Failed by the outcome of the extension |
| `NodeService.VolumeManager.Reconcile` | pkg/node/volumemgr.go:262-336 | makes the reconcile transition of the status; the finalizer goes only for Removed and Failed |
| `StorageGroups.Controller.AddDriveAndACStorageGroupLabel` | pkg/crcontrollers/storagegroup/storagegroupcontroller.go:650-690 | labels drive and AC exactly when the drive is clean and its own AC offers space |
| `StorageGroups.Controller.FirstPass` | pkg/crcontrollers/storagegroup/storagegroupcontroller.go:467-502 | the counts are exact after the loop and every drive for which its node may still have room is among the candidates collected against partial counts |
| `StorageGroups.Controller.LabelCandidates` | pkg/crcontrollers/storagegroup/storagegroupcontroller.go:504-515 | exactly the chosen drives get the label |
| `StorageGroups.Controller.HandleStorageGroupCreationOrUpdate` | pkg/crcontrollers/storagegroup/storagegroupcontroller.go:449-531 | drives and ACs afterwards carry exactly the labels of the chosen drives; SYNCED exactly unless a clean drive whose node has room has neither AC nor LVG |
| `StorageGroups.QuotaIsMet` | pkg/crcontrollers/storagegroup/storagegroupcontroller.go:449-531 | each node ends with max(before, min(N, before + free)) drives of the group, with all free ones when N is 0 |
| `StorageGroups.QuotaOfDrives` | pkg/crcontrollers/storagegroup/storagegroupcontroller.go:467-515 | the same counted over the drives themselves; only drives that are there, clean, selected, without a group and with an AC that offers space are labelled, and without a quota all of them |
| `StorageGroups.RelabelledIsStored` | pkg/crcontrollers/storagegroup/storagegroupcontroller.go:449-531 | the list the quota counts is what the store holds afterwards |
| `StorageGroups.SyncRespectsData` | pkg/crcontrollers/storagegroup/storagegroupcontroller.go:650-690 | no AC whose drive holds a volume changes its label in a group sync |
| `StorageGroups.Controller.MatchGroups` | pkg/crcontrollers/storagegroup/storagegroupcontroller.go:188-217 | the first group without quota that takes the drive, and every group with a quota seen before it is synced again |
| `StorageGroups.Controller.FindAndAddMatchedStorageGroupLabel` | pkg/crcontrollers/storagegroup/storagegroupcontroller.go:178-219 | drive and AC get that group, or none exactly when no group takes the drive |
| `StorageGroups.Controller.HandleSeparateDriveStorageGroupLabelAddition` | pkg/crcontrollers/storagegroup/storagegroupcontroller.go:221-251 | a label put on a drive by hand reaches the AC of a clean unused drive and is taken off otherwise |
| `StorageGroups.Controller.HandleManualDriveStorageGroupLabelRemoval` | pkg/crcontrollers/storagegroup/storagegroupcontroller.go:253-293 | a removed label comes back while volumes or a selecting group hold on to it, and leaves the AC otherwise |
| `StorageGroups.Controller.ReconcileDriveStorageGroupLabel` | pkg/crcontrollers/storagegroup/storagegroupcontroller.go:296-348 | the outcome of one label sync in every case, nothing else being changed |
| `StorageGroups.LabelsAgree` | pkg/crcontrollers/storagegroup/storagegroupcontroller.go:296-348 | after a sync drive and AC carry the same label and no other drive or AC changed |
| `StorageGroups.SyncOutcome` | pkg/crcontrollers/storagegroup/storagegroupcontroller.go:221-348 | which label that is, in each case: of two labels that of the AC, a label of the drive only if it is clean and offers space, a label of the AC only while a volume or a selecting group holds on to it |
| `StorageGroups.LabelSyncRespectsData` | pkg/crcontrollers/storagegroup/storagegroupcontroller.go:296-348 | the sync leaves the label of every AC alone whose drive holds a volume |
| `StorageGroups.Controller.HandleStorageGroupDeletion` | pkg/crcontrollers/storagegroup/storagegroupcontroller.go:401-435 | drives without volumes lose the label with their ACs; the group goes exactly when no drive carries it any more |
| `StorageGroups.DeletionRespectsData` | pkg/crcontrollers/storagegroup/storagegroupcontroller.go:605-648 | deleting a group leaves the label of every AC alone whose drive holds a volume |
| `Discovery.VolumeManager.UpdateDrivesCRs` | pkg/node/volumemgr.go:646-772 | one pass brings every CR of the node up to date, creates one CR per new identifiable online drive and leaves other nodes alone |
| `Discovery.PassKeepsFields` | pkg/node/volumemgr.go:684-692 | UUID, usage, system flag and cleanliness of existing CRs survive, unreported drives are offline |
| `Discovery.ReportReachesCR` | pkg/node/volumemgr.go:673-702 | node, online state, kind, size, path and LED state of a reported drive reach its CR, and its health unless an annotation overrides it |
| `Discovery.UnreportedGoesOffline` | pkg/node/volumemgr.go:742-770 | an unreported drive is offline with health UNKNOWN, unless overridden, and otherwise as before |
| `Discovery.NewCRsAre` | pkg/node/volumemgr.go:705-733 | a new CR is what was reported, under the node ID of the manager, IN_USE, and system or clean by its path; CRs of other nodes are left alone |
| `Discovery.PassKeepsUnique` | pkg/node/volumemgr.go:1127-1131 | no two CRs of the node ever get the same serial number, vendor and product, and none is without a serial number |
| `Discovery.ReportedHasCR` | pkg/node/volumemgr.go:705-735 | a reported drive has a CR afterwards exactly when it had one or is identifiable and online |
| `Discovery.SecondPassIsIdleIff` | api/v1/drivecrd/drive_types.go:76-87 | a second pass over the same report changes nothing if and only if every identifiable online drive is reported under the node ID of the manager |
| `DriveRemoval.Controller.HandleDriveUsageReleasing` | pkg/crcontrollers/drive/drivecontroller.go:382-406 | RELEASED exactly when every volume on the drive is marked released |
| `DriveRemoval.Controller.HandleDriveUsageRemoving` | pkg/crcontrollers/drive/drivecontroller.go:408-445 | waits exactly while a volume is neither removed nor fake-attached, or an LVG volume is not fake-attached; a dark LED means FAILED, an unreachable node means no write |
| `DriveRemoval.Controller.HandleDriveUsageRemoved` | pkg/crcontrollers/drive/drivecontroller.go:447-463 | the CR is deleted exactly for an absent drive whose node LED is off or still needed and whose group was told; its AC goes with it |
| `DriveRemoval.Controller.StopLocateNodeLED` | pkg/crcontrollers/drive/drivecontroller.go:482-506 | succeeds when another drive is still REMOVED, otherwise as the LED does |
| `DriveRemoval.Controller.HandleDriveStatus` | pkg/crcontrollers/drive/drivecontroller.go:279-303 | the volumes on the drive are missing exactly while it is offline |
| `DriveRemoval.Controller.HandleDriveLabelUpdate` | pkg/crcontrollers/drive/drivecontroller.go:562-609 | the AC of the drive or of its LVG carries the taint of the drive |
| `DriveRemoval.Controller.HandleOtherUsage` | pkg/crcontrollers/drive/drivecontroller.go:170-228 | the remaining stages; a drive that starts to be removed has exactly the volumes on it marked, one that is taken back has exactly their failed releases forgotten |
| `DriveRemoval.Controller.HandleUsage` | pkg/crcontrollers/drive/drivecontroller.go:168-233 | the step of the usage machine, with released and gone evaluated on the volumes of the drive |
| `DriveRemoval.Controller.HandleDriveUpdate` | pkg/crcontrollers/drive/drivecontroller.go:154-234 | volumes, annotations and ACs afterwards: missing flags and taint follow the drive, the AC goes with an absent drive |
| `DriveRemoval.Controller.Reconcile` | pkg/crcontrollers/drive/drivecontroller.go:109-152 | drive, volumes and annotations make exactly the step of the machine, its ACs get the taint or go with the CR, and no other drive changes |
| `DriveRemoval.MovesExactly` | pkg/crcontrollers/drive/drivecontroller.go:168-233 | for each usage exactly when a reconcile moves a drive there: IN_USE to RELEASING if and only if its health is SUSPECT or BAD, and so on |
| `DriveRemoval.RestStays` | pkg/crcontrollers/drive/drivecontroller.go:168-233 | the CR is deleted exactly for an absent removed drive, an obeyed annotation is cleared, nothing else of the drive changes |
| `DriveRemoval.VolumesFollow` | pkg/crcontrollers/drive/drivecontroller.go:279-303 | exactly the volumes on the drive are missing while it is offline |
| `DriveRemoval.NotesFollow` | pkg/crcontrollers/drive/drivecontroller.go:202-277 | exactly the volumes on a drive that starts to be removed are marked, and exactly failed releases on one that is taken back forgotten |
| `DriveRemoval.ACsFollowMeans` | pkg/crcontrollers/drive/drivecontroller.go:562-609 | the AC at the place of the drive has its taint, the AC at the drive may go with it, all others are as before |
| `DriveLife.EnteredExactly` | pkg/crcontrollers/drive/drivecontroller.go:152-234 | in a run with writes of the node and changes of volumes in between: a drive comes to a usage if and only if a reconcile moves it there under its condition in the state it read, or the node writes it |
| `DriveLife.EnteredUnder` | pkg/crcontrollers/drive/drivecontroller.go:152-234 | in words: RELEASING from IN_USE with health SUSPECT or BAD or by a finished release; RELEASED, REMOVING and REMOVED by the controller only, from the stage before and under the condition in the state it read, REMOVED also when an operator forces a failed drive |
| `DriveLife.ReconcileIsRun` | pkg/crcontrollers/drive/drivecontroller.go:109-152 | the step proved for Reconcile is a look, a write of the drive and the writes to its volumes |
| `DriveLife.BackwardsExactly` | pkg/node/volumemgr.go:387-418 | a drive moves backwards if and only if an operator takes a released or failed drive back, or the node writes a finished release to a drive past RELEASING |
| `DriveLife.FailureIsForgotten` | pkg/node/volumemgr.go:338-418 | the failing input: two volumes, one failed and one finished release, and a FAILED drive is RELEASING again without an operator |
| `DriveLife.DeletedDriveWasEmptied` | pkg/crcontrollers/drive/drivecontroller.go:152-463 | over a whole run: the CR of a drive is deleted only after a reconcile found every volume on it released, a later one every volume gone, and a last one the drive absent, each stage standing until the next - unless an operator forced a failed drive out |
| `DriveLife.MarksAreEarned` | pkg/node/volumemgr.go:338-418 | each volume counted as released had its release annotated as done before |
| `NodeRelease.VolumeManager.GetDriveCRByVolume` | pkg/base/k8s/cr_helper.go:363-410 | the drive of the LVG of the volume, or its own |
| `NodeRelease.VolumeManager.RetryDriveUpdate` | pkg/node/volumemgr.go:387-418 | the drive gets usage and mark with the first of five accepted attempts, whatever its usage was |
| `NodeRelease.VolumeManager.ReconcileRelease` | pkg/node/volumemgr.go:338-385 | a releasing volume whose annotation says done or failed is settled, then its drive marked |
| `NodeRelease.VolumeManager.PerformVolumeRemoving` | pkg/node/volumemgr.go:524-563 | a missing volume is Removed without a look, a failed removal fails the drive |
| `NodeRelease.VolumeManager.AnnotateIfAllDRVolsFakeAttached` | pkg/node/node.go:206-249 | an online drive is noted exactly when every volume on it is fake-attached |
| `NodeRelease.ReleaseIsEvents` | pkg/node/volumemgr.go:338-418 | what the node does for a release is a settling and a mark in the life of the drive |
| `NodeRelease.FailedRemovalIsEvent` | pkg/node/volumemgr.go:544-555 | and a failed removal is its removal failure |

## Left out

- Kubernetes client, caches, informers, retries and finalizers: only the order of writes is kept. A CR whose deletion is requested is gone at once, except an LVG, which waits for its controller, and where a reconcile of a deleted CR is itself the subject. The finalizer of the system LVG is left out.
- pkg/controller/capacitycontroller: the creation and periodic rewriting of ACs is not part of this model; ACs are initial state. Interleaved, it would change AC sizes behind the accounts.
- Mounts, fake devices, LVM and partition commands, LEDs: their outcomes are parameters.
- gRPC and HTTP servers, metrics, events and logging.
- Timeouts, except that a creation that takes too long fails (`Lifecycle.TimedOut`); WaitStatus is the environment's choice of the moment at which a call goes on.
- The retry of handleVolumeInProgress and ephemeral volumes: they repeat steps that are modelled; in the handshake a retry is a call that reads its request and releases it.
- Match fields of a storage group: a set of drives that agree with them.
- Storage-group validation and finalizers, the resync annotations of drive removal: easy branches.
- The reserved capacity manager of pkg/base/capacityplanner/planner.go:283-362: unused by the reservation controller.
- The usage of a volume becoming RELEASING when its health changes: a change from outside in the life of a drive.
- Conservation.DriveComesBack: speaks of one drive per LVG, as the only caller of the conversion does; the system LVG, which no volume class converts to, is accounted but never created here.
- LVGControllers.Controller.Reconcile: speaks of an LVG of one drive; the methods it calls of any number. A Volume CR that is deleted by hand, past the controller, does not hold an LVG back (`LVGControllers.Controller.HandleLVGRemoving`); in the runs of the byte accounts volumes go through the controller only.
- Promises.PromiseBreaksExactly: speaks of drive requests of at least one byte - a request for nothing loses nothing - and says nothing of storage-group labels and taints, which may change after a reservation was confirmed, nor of sizes of LVG ACs, which the over-commit law is about.
- DriveUse.DrivesAreExclusiveExactly: speaks of volumes that take whole drives, and of drives made a volume group while one does; the other way round, a drive under volumes of its LVG, is `Stranding.OfferedUnderExactly`.
- Overcommit.OvercommitExactly: speaks of one further request; for whole runs OvercommitLaw and OvercommitBound give a bound.
- Planner.CapacityManager.PlanVolumesPlacing: completeness is stated for lists of HDD, SSD and NVMe requests and for lists of ANY requests where the free ACs ascend; a list that mixes ANY with the others is not covered, and for LVG, where the question is bin packing, there is only a failing list.
- VolumeOps.VolumeOperations.HandleVolumeCreation: of the writes only the AC update may fail, because its failure is the one the program goes on from; a write that fails ends the call and is left to the retry. As a method it is one step; its steps one by one are `Bridge.CreationIsRun`.
- CRHelper.GetACByLocation: compares locations exactly, where the program ignores upper and lower case: locations are UUIDs written by the program itself.
- CRHelper.GetVolumesByLocation: the same.
- NodeService.CSINodeService.NodePublishVolume: leaves the note on the drive to `NodeRelease.VolumeManager.AnnotateIfAllDRVolsFakeAttached`, which the program calls at its end.
- NodeService.VolumeManager.HandleRemovingStatus: leaves the drive's usage to `NodeRelease.VolumeManager.PerformVolumeRemoving`, which the program calls at its start.
- NodeService.VolumeManager.Reconcile: leaves the release of a volume to `NodeRelease.VolumeManager.ReconcileRelease`, its last branch, and the removal of a deleted volume's mark from the drive to the changes of `DriveLife`.
- Discovery.VolumeManager.UpdateDrivesCRs: successful writes only; the list of changes it returns for events and the search for system drives are left out.
