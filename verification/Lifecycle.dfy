// The CSI status machine of one volume: the node RPCs of pkg/node/node.go, the node reconciler of
// pkg/node/volumemgr.go and the controller's status changes of pkg/common/volume_operations.go.
// Commands run on the node are outcomes chosen by the environment.

module Lifecycle {
  import opened Types

  /** How mounting ended in NodeStageVolume. `Unwritten` stands for the errors that
      return before the CR is written: drive unreadable, fake device not mountable. */
  datatype StageOutcome = Mounted | FakeAttached | MountFailed | Unwritten

  /** NodeStageVolume, node.go:331-410. */
  function Staged(v: Volume, o: StageOutcome): Volume {
    match v.status
    case Created | Published | Failed =>
      (match o
       case Mounted => v.(status := VolumeReady)
       case FakeAttached => v.(status := VolumeReady, missing := true)
       case MountFailed => v.(status := Failed)
       case Unwritten => v)
    case _ => v
  }

  /** NodeUnstageVolume, node.go:454-500. */
  function Unstaged(v: Volume, unmounted: bool): Volume {
    if v.status.VolumeReady? then v.(status := if unmounted then Created else Failed) else v
  }

  predicate Mountable(s: Status) {
    s.VolumeReady? || s.Published?
  }

  /** NodePublishVolume, node.go:570-617. */
  function PublishedBy(v: Volume, pod: string, mounted: bool): Volume {
    if !Mountable(v.status) then v
    else
      var owners := if pod in v.owners then v.owners else v.owners + [pod];
      v.(owners := owners, status := if mounted then Published else Failed)
  }

  /** The owners that NodeUnpublishVolume keeps: pods that still exist and are not the one unmounted. */
  function Remaining(owners: seq<string>, gone: set<string>): (r: seq<string>)
    ensures forall p :: p in r <==> p in owners && p !in gone
  {
    if owners == [] then []
    else
      var last := owners[|owners| - 1];
      assert owners == owners[..|owners| - 1] + [last];
      Remaining(owners[..|owners| - 1], gone) + (if last in gone then [] else [last])
  }

  /** NodeUnpublishVolume, node.go:662-715. */
  function UnpublishedBy(v: Volume, unmounted: bool, gone: set<string>): Volume {
    if !Mountable(v.status) then v
    else if !unmounted then v.(status := Failed)
    else
      var owners := Remaining(v.owners, gone);
      v.(owners := owners, status := if owners == [] then VolumeReady else v.status)
  }

  /** What preparing, releasing or extending the storage gave; `Retry` leaves the CR for later. */
  datatype NodeOutcome = Done | Broken | Retry

  /** Reconcile on the node: prepareVolume, handleRemovingStatus, handleExpandingStatus
      (volumemgr.go:326-336, 479-563, 1280-1299). */
  function Reconciled(v: Volume, o: NodeOutcome): Volume {
    match v.status
    case Creating => if o.Retry? then v else v.(status := if o.Done? then Created else Failed)
    case Removing =>
      if v.missing then v.(status := Removed)
      else if o.Retry? then v else v.(status := if o.Done? then Removed else Failed)
    case Resizing => if o.Retry? then v else v.(status := if o.Done? then Resized else Failed)
    case _ => v
  }

  /** Reconcile of a volume whose CR is being deleted (volumemgr.go:295-324): Created moves through
      Removing within the same reconcile. */
  function ReconciledDeleting(v: Volume, o: NodeOutcome): Volume {
    if v.status.Created? then
      var r := Reconciled(v.(status := Removing), o);
      if r.status.Removing? then v else r
    else if v.status.Removing? then Reconciled(v, o)
    else v
  }

  /** handleVolumeInProgress: creation took too long (volume_operations.go:280-288). */
  function TimedOut(v: Volume): Volume {
    if v.status.Creating? then v.(status := Failed) else v
  }

  /** DeleteVolume (volume_operations.go:377-394). */
  function DeleteRequested(v: Volume): Volume {
    if v.status.Created? then v.(status := Removing) else v
  }

  /** The volume part of ExpandVolume (volume_operations.go:557-594). */
  predicate Expandable(v: Volume) {
    (v.status.VolumeReady? || v.status.Created? || v.status.Published?) && IsLVG(v.sc)
  }

  function ExpandStarted(v: Volume, requiredBytes: int): Volume {
    v.(previousStatus := Some(v.status), previousCapacity := Some(v.size), status := Resizing, size := requiredBytes)
  }

  /** The volume part of UpdateCRsAfterVolumeExpansion (volume_operations.go:624-656). */
  function ExpandFinished(v: Volume): Volume {
    match v.status
    case Failed =>
      if v.previousCapacity.None? then v
      else v.(size := v.previousCapacity.value, previousCapacity := None, previousStatus := None)
    case Resized =>
      v.(status := if v.previousStatus.Some? then v.previousStatus.value else v.status,
         previousCapacity := None, previousStatus := None)
    case _ => v
  }

  /** Everything that can happen to an existing Volume CR. ExpandFinish carries no byte count:
      the caller's requiredBytes reaches the AC only. DriveSeen is the drive controller's update of the
      operational status (drivecontroller.go:279-303). */
  datatype Action =
    | Stage(outcome: StageOutcome)
    | Unstage(unmounted: bool)
    | Publish(pod: string, mounted: bool)
    | Unpublish(unpublished: bool, gone: set<string>)
    | NodeReconcile(result: NodeOutcome)
    | NodeReconcileDeleting(finalResult: NodeOutcome)
    | CreationTimeout
    | RequestDelete
    | DriveSeen(online: bool)
    | ExpandStart(requiredBytes: int)
    | ExpandFinish

  function Act(v: Volume, a: Action): Volume {
    match a
    case Stage(o) => Staged(v, o)
    case Unstage(ok) => Unstaged(v, ok)
    case Publish(pod, ok) => PublishedBy(v, pod, ok)
    case Unpublish(ok, gone) => UnpublishedBy(v, ok, gone)
    case NodeReconcile(o) => Reconciled(v, o)
    case NodeReconcileDeleting(o) => ReconciledDeleting(v, o)
    case CreationTimeout => TimedOut(v)
    case RequestDelete => DeleteRequested(v)
    case DriveSeen(online) => v.(missing := !online)
    case ExpandStart(n) => if Expandable(v) && v.size < n then ExpandStarted(v, n) else v
    case ExpandFinish => ExpandFinished(v)
  }

  function Run(v: Volume, acts: seq<Action>): Volume {
    if acts == [] then v else Act(Run(v, acts[..|acts| - 1]), acts[|acts| - 1])
  }

  // ---- which step leads where ----

  /** Storage is there, or is faked, at the end of a stage. */
  predicate Stages(a: Action) {
    a.Stage? && (a.outcome.Mounted? || a.outcome.FakeAttached?)
  }

  /** The steps that lead from another status into `to`. */
  predicate LeadsTo(v: Volume, a: Action, to: Status) {
    match to
    case Creating => false
    case Created => (v.status.Creating? && a == NodeReconcile(Done)) || (v.status.VolumeReady? && a == Unstage(true))
    case VolumeReady =>
      || ((v.status.Created? || v.status.Published? || v.status.Failed?) && Stages(a))
      || (v.status.Published? && a.Unpublish? && a.unpublished && forall o :: o in v.owners ==> o in a.gone)
    case Published => v.status.VolumeReady? && a.Publish? && a.mounted
    case Removing => v.status.Created? && a.RequestDelete?
    case Removed =>
      || (v.status.Removing? && (a == NodeReconcile(Done) || (a.NodeReconcile? && v.missing)))
      || ((v.status.Created? || v.status.Removing?) && (a == NodeReconcileDeleting(Done) || (a.NodeReconcileDeleting? && v.missing)))
    case Resizing => a.ExpandStart? && IsLVG(v.sc) && v.size < a.requiredBytes
                     && (v.status.VolumeReady? || v.status.Created? || v.status.Published?)
    case Resized => v.status.Resizing? && a == NodeReconcile(Done)
    case Failed =>
      || (v.status.Creating? && (a == NodeReconcile(Broken) || a.CreationTimeout?))
      || (v.status.Resizing? && a == NodeReconcile(Broken))
      || (v.status.Removing? && !v.missing && (a == NodeReconcile(Broken) || a == NodeReconcileDeleting(Broken)))
      || (v.status.Created? && !v.missing && a == NodeReconcileDeleting(Broken))
      || ((v.status.Created? || v.status.Published?) && a == Stage(MountFailed))
      || (v.status.VolumeReady? && a == Unstage(false))
      || ((v.status.VolumeReady? || v.status.Published?) && ((a.Publish? && !a.mounted) || (a.Unpublish? && !a.unpublished)))
  }

  /** A volume comes into a status by exactly these steps, or back to the status it had before its expansion. */
  lemma StatusChangesExactly(v: Volume, a: Action, to: Status)
    requires v.status != to
    ensures Act(v, a).status == to <==> LeadsTo(v, a, to) || (v.status.Resized? && a.ExpandFinish? && v.previousStatus == Some(to))
  {
    hide Act, LeadsTo;
    if a.Stage? || a.Unstage? || a.Publish? {
      MountingLeadsTo(v, a, to);
    } else if a.Unpublish? {
      UnpublishingLeadsTo(v, a, to);
    } else if a.NodeReconcile? || a.NodeReconcileDeleting? {
      ReconcilingLeadsTo(v, a, to);
    } else {
      ControllerLeadsTo(v, a, to);
    }
  }

  lemma MountingLeadsTo(v: Volume, a: Action, to: Status)
    requires v.status != to && (a.Stage? || a.Unstage? || a.Publish?)
    ensures Act(v, a).status == to <==> LeadsTo(v, a, to)
  {
  }

  lemma UnpublishingLeadsTo(v: Volume, a: Action, to: Status)
    requires v.status != to && a.Unpublish?
    ensures Act(v, a).status == to <==> LeadsTo(v, a, to)
  {
    NoneRemains(v.owners, a.gone);
    hide Remaining;
  }

  lemma ReconcilingLeadsTo(v: Volume, a: Action, to: Status)
    requires v.status != to && (a.NodeReconcile? || a.NodeReconcileDeleting?)
    ensures Act(v, a).status == to <==> LeadsTo(v, a, to)
  {
  }

  lemma ControllerLeadsTo(v: Volume, a: Action, to: Status)
    requires v.status != to && (a.CreationTimeout? || a.RequestDelete? || a.DriveSeen? || a.ExpandStart? || a.ExpandFinish?)
    ensures Act(v, a).status == to <==> LeadsTo(v, a, to) || (v.status.Resized? && a.ExpandFinish? && v.previousStatus == Some(to))
  {
  }

  /** The owners that stay keep their order. */
  lemma {:induction false} AllRemain(owners: seq<string>, gone: set<string>)
    requires forall p :: p in owners ==> p !in gone
    ensures Remaining(owners, gone) == owners
  {
    if owners != [] {
      AllRemain(owners[..|owners| - 1], gone);
      assert owners == owners[..|owners| - 1] + [owners[|owners| - 1]];
    }
  }

  lemma NoneRemains(owners: seq<string>, gone: set<string>)
    ensures Remaining(owners, gone) == [] <==> forall o :: o in owners ==> o in gone
  {
    var kept := Remaining(owners, gone);
    if kept != [] { assert kept[0] in kept; }
  }

  /** A pod becomes an owner by being published to, and stops being one by an unpublish that finds it gone. */
  lemma OwnersChangeExactly(v: Volume, a: Action, p: string)
    ensures p in Act(v, a).owners <==>
              || (p in v.owners && !(a.Unpublish? && a.unpublished && (v.status.VolumeReady? || v.status.Published?) && p in a.gone))
              || (a.Publish? && p == a.pod && (v.status.VolumeReady? || v.status.Published?))
  {
    hide Remaining;
  }

  /** The rest of a volume: its size follows the expansion, fake-attaching and the drive decide whether it is missing, and
      nothing else changes. */
  lemma FieldsChangeExactly(v: Volume, a: Action)
    ensures var w := Act(v, a);
            && w == v.(status := w.status, missing := w.missing, owners := w.owners, size := w.size,
                       previousStatus := w.previousStatus, previousCapacity := w.previousCapacity)
            && (w.missing <==> if a.DriveSeen? then !a.online
                               else v.missing || (a == Stage(FakeAttached) && (v.status.Created? || v.status.Published? || v.status.Failed?)))
            && w.size == (if LeadsTo(v, a, Resizing) then a.requiredBytes
                          else if a.ExpandFinish? && v.status.Failed? && v.previousCapacity.Some? then v.previousCapacity.value
                          else v.size)
            && (LeadsTo(v, a, Resizing) ==> w.previousStatus == Some(v.status) && w.previousCapacity == Some(v.size))
  {
    hide Remaining;
  }

  // ---- invariant over every run ----

  /** Owners are duplicate-free; a published volume has an owner, also while it is being expanded;
      an expansion under way remembers a status to return to. */
  ghost predicate Sound(v: Volume) {
    && Distinct(v.owners)
    && (v.status.Published? ==> v.owners != [])
    && (v.status.Resizing? || v.status.Resized? ==>
          && v.previousStatus.Some? && v.previousCapacity.Some? && v.previousCapacity.value < v.size
          && (v.previousStatus.value.VolumeReady? || v.previousStatus.value.Created? || v.previousStatus.value.Published?)
          && (v.previousStatus.value.Published? ==> v.owners != []))
  }

  lemma {:induction false} RemainingDistinct(owners: seq<string>, gone: set<string>)
    requires Distinct(owners)
    ensures Distinct(Remaining(owners, gone))
  {
    if owners != [] {
      RemainingDistinct(owners[..|owners| - 1], gone);
      assert owners[|owners| - 1] !in owners[..|owners| - 1];
    }
  }

  lemma PublishKeepsSound(v: Volume, pod: string, mounted: bool)
    requires Sound(v)
    ensures Sound(PublishedBy(v, pod, mounted))
  {
    assert pod !in v.owners ==> Distinct(v.owners + [pod]);
    hide Distinct;
  }

  lemma UnpublishKeepsSound(v: Volume, unmounted: bool, gone: set<string>)
    requires Sound(v)
    ensures Sound(UnpublishedBy(v, unmounted, gone))
  {
    RemainingDistinct(v.owners, gone);
    hide Distinct;
  }

  lemma ActKeepsSound(v: Volume, a: Action)
    requires Sound(v)
    ensures Sound(Act(v, a))
  {
    hide Distinct;
    match a
    case Publish(pod, ok) =>
      PublishKeepsSound(v, pod, ok);
      hide Sound, PublishedBy;
    case Unpublish(ok, gone) =>
      UnpublishKeepsSound(v, ok, gone);
      hide Sound, UnpublishedBy;
    case _ =>
  }

  lemma {:induction false} RunKeepsSound(v: Volume, acts: seq<Action>)
    requires Sound(v)
    ensures Sound(Run(v, acts))
  {
    if acts != [] {
      RunKeepsSound(v, acts[..|acts| - 1]);
      ActKeepsSound(Run(v, acts[..|acts| - 1]), acts[|acts| - 1]);
    }
  }

  lemma {:induction false} RunSplits(v: Volume, a: seq<Action>, b: seq<Action>)
    ensures Run(v, a + b) == Run(Run(v, a), b)
  {
    if b == [] {
      assert a + b == a;
    } else {
      var init := b[..|b| - 1];
      RunSplits(v, a, init);
      assert (a + b)[..|a + b| - 1] == a + init;
    }
  }

  predicate SameButMissing(v: Volume, w: Volume) {
    w == v.(missing := w.missing)
  }

  /** Removed is final: whatever follows, the volume stays Removed until its CR is gone. */
  lemma {:induction false} RemovedIsAbsorbing(v: Volume, acts: seq<Action>)
    requires v.status.Removed?
    ensures SameButMissing(v, Run(v, acts))
  {
    if acts != [] { RemovedIsAbsorbing(v, acts[..|acts| - 1]); }
  }

  /** Removing is entered only from Created and by a delete request; Removed only from Removing,
      or from Created inside the reconcile of a deleted CR. Storage is released on these steps only. */
  lemma RemovalIsEnteredFrom(v: Volume, a: Action)
    requires Sound(v)
    ensures Act(v, a).status.Removing? && !v.status.Removing? ==> v.status.Created? && a.RequestDelete?
    ensures Act(v, a).status.Removed? && !v.status.Removed? ==>
              (v.status.Removing? && (a.NodeReconcile? || a.NodeReconcileDeleting?)) || (v.status.Created? && a.NodeReconcileDeleting?)
  {
  }

  /** A removed volume was created and then asked to go: on the way to Removed every run passes a
      state Created followed by the delete. */
  lemma {:induction false} RemovedWasCreated(v: Volume, acts: seq<Action>) returns (k: nat)
    requires Sound(v) && Run(v, acts).status.Removed? && !v.status.Removed? && !v.status.Removing?
    ensures k < |acts| && Run(v, acts[..k]).status.Created? && (acts[k].RequestDelete? || acts[k].NodeReconcileDeleting?)
    ensures forall j :: k < j <= |acts| ==>
              Run(v, acts[..j]).status.Removing? || Run(v, acts[..j]).status.Removed?
  {
    k := LastNotRemoving(v, acts);
    var before, after := Run(v, acts[..k]), Run(v, acts[..k + 1]);
    assert acts[..k + 1][..k] == acts[..k];
    RunKeepsSound(v, acts[..k]);
    RemovalIsEnteredFrom(before, acts[k]);
  }

  lemma {:induction false} LastNotRemoving(v: Volume, acts: seq<Action>) returns (k: nat)
    requires Run(v, acts).status.Removed? || Run(v, acts).status.Removing?
    requires !v.status.Removed? && !v.status.Removing?
    ensures k < |acts| && !Run(v, acts[..k]).status.Removed? && !Run(v, acts[..k]).status.Removing?
    ensures forall j :: k < j <= |acts| ==>
              Run(v, acts[..j]).status.Removing? || Run(v, acts[..j]).status.Removed?
  {
    var init := acts[..|acts| - 1];
    assert acts[..|acts|] == acts;
    if Run(v, init).status.Removed? || Run(v, init).status.Removing? {
      k := LastNotRemoving(v, init);
      forall j | k < j <= |acts| ensures Run(v, acts[..j]).status.Removing? || Run(v, acts[..j]).status.Removed? {
        if j < |acts| { assert acts[..j] == init[..j]; }
      }
      assert acts[..k] == init[..k];
    } else {
      k := |acts| - 1;
    }
  }

  predicate OwnedOnlyIfPublished(v: Volume) {
    v.owners != [] ==> v.status.Published?
  }

  /** The steps that leave owners on a volume that is not published. */
  predicate LeavesOwners(v: Volume, a: Action) {
    match a
    case Stage(o) => v.status.Published? && !o.Unwritten?
    case Publish(_, mounted) => Mountable(v.status) && !mounted
    case Unpublish(unmounted, _) => v.status.Published? && !unmounted
    case ExpandStart(n) => v.status.Published? && Expandable(v) && v.size < n
    case _ => false
  }

  /** An owner list alone does not say that a volume is published: exactly the steps of LeavesOwners
      make the two disagree. */
  lemma OwnersOutlivePublishedExactly(v: Volume, a: Action)
    requires Sound(v) && OwnedOnlyIfPublished(v)
    ensures OwnedOnlyIfPublished(Act(v, a)) <==> !LeavesOwners(v, a)
  {
    hide Distinct;
  }

  // ---- the expansion protocol ----

  /** v is the volume v0 some steps after its expansion to n bytes began. */
  predicate Pending(v0: Volume, n: int, v: Volume) {
    && (v.status.Resizing? || v.status.Resized? || v.status.Failed?)
    && v.size == n && v.previousStatus == Some(v0.status) && v.previousCapacity == Some(v0.size)
    && v.owners == v0.owners
  }

  /** Success was finished: the old status with the new size. */
  predicate Restored(v0: Volume, n: int, v: Volume) {
    v.status == v0.status && v.size == n && v.previousStatus.None? && v.previousCapacity.None? && v.owners == v0.owners
  }

  /** Failure was finished: the old size, and nothing left to refund. */
  predicate RolledBack(v0: Volume, v: Volume) {
    v.status.Failed? && v.size == v0.size && v.previousStatus.None? && v.previousCapacity.None? && v.owners == v0.owners
  }

  lemma ExpansionBegins(v0: Volume, n: int)
    requires Expandable(v0) && v0.size < n
    ensures Pending(v0, n, Act(v0, ExpandStart(n))) && Act(v0, ExpandStart(n)).status.Resizing?
  {
  }

  /** One step of an expansion: it stays pending, is finished, or - only from Failed, only by a
      restage - leaves the protocol with the refund still owed. */
  lemma ExpansionStep(v0: Volume, n: int, v: Volume, a: Action)
    requires Pending(v0, n, v)
    ensures v.status.Resizing? ==> SameButMissing(v, Act(v, a)) || (a.NodeReconcile? && Pending(v0, n, Act(v, a)) && !Act(v, a).status.Resizing?)
    ensures v.status.Resized? ==> SameButMissing(v, Act(v, a)) || (a.ExpandFinish? && Restored(v0, n, Act(v, a)))
    ensures v.status.Failed? ==> Pending(v0, n, Act(v, a)) || (a.ExpandFinish? && RolledBack(v0, Act(v, a)))
                                 || (a.Stage? && Act(v, a).status.VolumeReady? && Act(v, a).previousCapacity.Some?)
  {
  }

  /** Nothing but the node's own reconcile moves a volume out of Resizing: stage, unstage, publish,
      unpublish and delete requests leave it as it is however many of them arrive. */
  lemma {:induction false} ResizingIsExclusive(v0: Volume, n: int, v: Volume, acts: seq<Action>)
    requires Pending(v0, n, v) && v.status.Resizing?
    requires forall i :: 0 <= i < |acts| ==> !acts[i].NodeReconcile?
    ensures SameButMissing(v, Run(v, acts))
  {
    if acts != [] { ResizingIsExclusive(v0, n, v, acts[..|acts| - 1]); }
  }

  ghost predicate PendingThrough(v0: Volume, n: int, v: Volume, acts: seq<Action>, k: nat)
    requires k <= |acts|
  {
    forall j :: 0 <= j <= k ==> Pending(v0, n, Run(v, acts[..j]))
  }

  /** Step k is the finishing call that ends a pending expansion. */
  ghost predicate FinishesAt(v0: Volume, n: int, v: Volume, acts: seq<Action>, k: nat)
    requires k < |acts|
  {
    var before, after := Run(v, acts[..k]), Run(v, acts[..k + 1]);
    && PendingThrough(v0, n, v, acts, k) && acts[k].ExpandFinish?
    && !before.status.Resizing?
    && (before.status.Resized? ==> Restored(v0, n, after))
    && (before.status.Failed? ==> RolledBack(v0, after))
  }

  /** Step k stages a volume whose failed expansion has not been finished. */
  ghost predicate HitsFailure(v0: Volume, n: int, v: Volume, acts: seq<Action>, k: nat)
    requires k < |acts|
  {
    PendingThrough(v0, n, v, acts, k) && Run(v, acts[..k]).status.Failed? && Stages(acts[k])
  }

  lemma PrefixesAgree(acts: seq<Action>, init: seq<Action>, k: nat)
    requires k <= |init| <= |acts| && init == acts[..|init|]
    ensures acts[..k] == init[..k]
  {
  }

  /** There are only two ways out of a pending expansion. */
  lemma ExitIsFinishOrRestage(v0: Volume, n: int, v: Volume, acts: seq<Action>, k: nat)
    requires k < |acts| && PendingThrough(v0, n, v, acts, k)
    ensures Pending(v0, n, Run(v, acts[..k + 1])) <==> !FinishesAt(v0, n, v, acts, k) && !HitsFailure(v0, n, v, acts, k)
    ensures HitsFailure(v0, n, v, acts, k) ==> Owed(v0.size, n, Run(v, acts[..k + 1]))
  {
    var before := Run(v, acts[..k]);
    assert Pending(v0, n, before);
    PrefixesAgree(acts, acts[..k + 1], k);
    assert Run(v, acts[..k + 1]) == Act(before, acts[k]);
    ExitOfOneStep(v0, n, before, acts[k]);
    hide Act, Run, Pending, Restored, RolledBack;
  }

  lemma ExitOfOneStep(v0: Volume, n: int, v: Volume, a: Action)
    requires Pending(v0, n, v)
    ensures var after := Act(v, a);
            && (!Pending(v0, n, after) <==>
                  || (a.ExpandFinish? && v.status.Resized? && Restored(v0, n, after))
                  || (a.ExpandFinish? && v.status.Failed? && RolledBack(v0, after))
                  || (v.status.Failed? && Stages(a)))
            && (v.status.Failed? && Stages(a) ==> Owed(v0.size, n, after))
            && (a.ExpandFinish? && v.status.Failed? ==> RolledBack(v0, after))
            && (a.ExpandFinish? && v.status.Resized? ==> Restored(v0, n, after))
    ensures v.status.Failed? || v.status.Resized? || v.status.Resizing?
  {
  }

  lemma {:induction false} FirstExit(v0: Volume, n: int, v: Volume, acts: seq<Action>) returns (k: nat)
    requires Pending(v0, n, v)
    ensures k <= |acts| && PendingThrough(v0, n, v, acts, k)
    ensures k < |acts| ==> !Pending(v0, n, Run(v, acts[..k + 1]))
  {
    k := 0;
    while k < |acts| && Pending(v0, n, Run(v, acts[..k + 1]))
      invariant k <= |acts| && PendingThrough(v0, n, v, acts, k)
    {
      k := k + 1;
    }
  }

  /** The expansion as a whole, in any interleaving: it stays pending, or the call that ends it restores
      the status with the new size after success and the size after failure - if and only if no
      restage meets a failure that is still pending. */
  lemma ExpansionResolvesIff(v0: Volume, n: int, v: Volume, acts: seq<Action>)
    requires Pending(v0, n, v)
    ensures PendingThrough(v0, n, v, acts, |acts|) || (exists k :: 0 <= k < |acts| && FinishesAt(v0, n, v, acts, k))
            <==> forall i :: 0 <= i < |acts| ==> !HitsFailure(v0, n, v, acts, i)
  {
    hide Run, Pending, FinishesAt, HitsFailure;
    var e := FirstExit(v0, n, v, acts);
    forall k | 0 <= k < |acts| && k != e
      ensures !FinishesAt(v0, n, v, acts, k) && !HitsFailure(v0, n, v, acts, k)
    {
      if k < e {
        assert PendingThrough(v0, n, v, acts, k);
        assert Pending(v0, n, Run(v, acts[..k + 1]));
        ExitIsFinishOrRestage(v0, n, v, acts, k);
      } else {
        assert !Pending(v0, n, Run(v, acts[..e + 1]));
        NotThrough(v0, n, v, acts, e, k);
      }
    }
    if e < |acts| {
      ExitIsFinishOrRestage(v0, n, v, acts, e);
      OnlyOneExit(v0, n, v, acts, e);
    }
  }

  /** The same from the call that starts the expansion. */
  lemma StartedExpansionResolvesIff(v0: Volume, n: int, acts: seq<Action>)
    requires Expandable(v0) && v0.size < n
    ensures var v := Act(v0, ExpandStart(n));
            PendingThrough(v0, n, v, acts, |acts|) || (exists k :: 0 <= k < |acts| && FinishesAt(v0, n, v, acts, k))
            <==> forall i :: 0 <= i < |acts| ==> !HitsFailure(v0, n, v, acts, i)
  {
    ExpansionBegins(v0, n);
    ExpansionResolvesIff(v0, n, Act(v0, ExpandStart(n)), acts);
    hide *;
  }

  /** Step j is the one in which the node extends the volume, or fails to. */
  ghost predicate NodeExtends(v: Volume, acts: seq<Action>, j: nat)
    requires j < |acts|
  {
    Run(v, acts[..j]).status.Resizing? && acts[j].NodeReconcile? && !acts[j].result.Retry?
  }

  /** While an expansion is pending: it is Resizing until the node's step, and then Resized or Failed as that step said. */
  lemma {:induction false} PendingSaysOutcome(v0: Volume, n: int, v: Volume, acts: seq<Action>, k: nat) returns (j: nat)
    requires v.status.Resizing? && k <= |acts| && PendingThrough(v0, n, v, acts, k)
    ensures j <= k && forall i :: 0 <= i < k && i != j ==> !NodeExtends(v, acts, i)
    ensures j == k <==> Run(v, acts[..k]).status.Resizing?
    ensures j < k ==> NodeExtends(v, acts, j)
                      && Run(v, acts[..k]).status == (if acts[j].result.Done? then Resized else Failed)
  {
    hide Act, Pending;
    if k == 0 {
      assert acts[..0] == [];
      j := 0;
    } else {
      j := PendingSaysOutcome(v0, n, v, acts, k - 1);
      var before, after := Run(v, acts[..k - 1]), Run(v, acts[..k]);
      assert after == Act(before, acts[k - 1]) by { OneMoreStep(v, acts, k - 1); }
      assert Pending(v0, n, before) && Pending(v0, n, after);
      hide Run;
      PendingStep(v0, n, before, acts[k - 1]);
      if j == k - 1 && after.status.Resizing? { j := k; }
    }
  }

  lemma PendingStep(v0: Volume, n: int, v: Volume, a: Action)
    requires Pending(v0, n, v) && Pending(v0, n, Act(v, a))
    ensures v.status.Resizing? && a == NodeReconcile(Done) ==> Act(v, a).status.Resized?
    ensures v.status.Resizing? && a == NodeReconcile(Broken) ==> Act(v, a).status.Failed?
    ensures v.status.Resizing? && !(a.NodeReconcile? && !a.result.Retry?) ==> Act(v, a).status.Resizing?
    ensures !v.status.Resizing? ==> Act(v, a).status == v.status
  {
  }

  /** The finishing call that ends an expansion follows the node: if the extension succeeded the volume has its old status
      and the new size, and if it failed the old size - whatever else happened in between. */
  lemma NodeDecidesExpansion(v0: Volume, n: int, v: Volume, acts: seq<Action>, k: nat) returns (j: nat)
    requires v0.size < n && Pending(v0, n, v) && v.status.Resizing? && k < |acts| && FinishesAt(v0, n, v, acts, k)
    ensures j < k && NodeExtends(v, acts, j) && forall i :: 0 <= i < k && i != j ==> !NodeExtends(v, acts, i)
    ensures acts[j].result.Done? <==> Restored(v0, n, Run(v, acts[..k + 1]))
    ensures acts[j].result.Broken? <==> RolledBack(v0, Run(v, acts[..k + 1]))
  {
    j := PendingSaysOutcome(v0, n, v, acts, k);
    hide Run, NodeExtends;
  }

  lemma NotThrough(v0: Volume, n: int, v: Volume, acts: seq<Action>, e: nat, k: nat)
    requires e < k < |acts| && !Pending(v0, n, Run(v, acts[..e + 1]))
    ensures !FinishesAt(v0, n, v, acts, k) && !HitsFailure(v0, n, v, acts, k)
  {
    hide Run, Pending;
  }

  lemma OnlyOneExit(v0: Volume, n: int, v: Volume, acts: seq<Action>, k: nat)
    requires k < |acts|
    ensures !(FinishesAt(v0, n, v, acts, k) && HitsFailure(v0, n, v, acts, k))
  {
    hide Run, Pending;
  }

  /** The refund of a failed expansion is owed although the volume no longer says that it failed
      to expand. */
  predicate Owed(c: int, n: int, v: Volume) {
    v.size == n && v.previousCapacity == Some(c) && !v.status.Resizing? && !v.status.Resized?
  }

  /** A finishing call pays the refund if it meets any failure; a new expansion forgets it. */
  predicate Settles(v: Volume, a: Action) {
    || (a.ExpandFinish? && v.status.Failed?)
    || (a.ExpandStart? && Expandable(v) && v.size < a.requiredBytes)
  }

  lemma OwedStep(c: int, n: int, v: Volume, a: Action)
    requires c < n && Owed(c, n, v)
    ensures Owed(c, n, Act(v, a)) <==> !Settles(v, a)
    ensures Settles(v, a) && a.ExpandFinish? ==> Act(v, a).size == c && Act(v, a).previousCapacity.None?
    ensures Settles(v, a) && a.ExpandStart? ==> Act(v, a).previousCapacity == Some(n)
  {
  }

  /** Step k settles the refund. */
  ghost predicate SettlesAt(v: Volume, acts: seq<Action>, k: nat)
    requires k < |acts|
  {
    Settles(Run(v, acts[..k]), acts[k])
  }

  ghost predicate OwedAfter(c: int, n: int, v: Volume, acts: seq<Action>, j: nat)
    requires j <= |acts|
  {
    Owed(c, n, Run(v, acts[..j]))
  }

  lemma OneMoreStep(v: Volume, acts: seq<Action>, j: nat)
    requires j < |acts|
    ensures Run(v, acts[..j + 1]) == Act(Run(v, acts[..j]), acts[j])
  {
    assert acts[..j + 1][..j] == acts[..j];
    hide Act;
  }

  lemma OwedOneMore(c: int, n: int, v: Volume, acts: seq<Action>, j: nat)
    requires c < n && j < |acts| && OwedAfter(c, n, v, acts, j)
    ensures OwedAfter(c, n, v, acts, j + 1) <==> !SettlesAt(v, acts, j)
  {
    OneMoreStep(v, acts, j);
    OwedStep(c, n, Run(v, acts[..j]), acts[j]);
  }

  lemma {:induction false} OwedWhileUnsettled(c: int, n: int, v: Volume, acts: seq<Action>, i: nat, j: nat)
    requires c < n && i <= j <= |acts| && OwedAfter(c, n, v, acts, i)
    requires forall k :: i <= k < j ==> !SettlesAt(v, acts, k)
    ensures OwedAfter(c, n, v, acts, j)
  {
    hide OwedAfter, SettlesAt;
    if i < j {
      OwedWhileUnsettled(c, n, v, acts, i, j - 1);
      OwedOneMore(c, n, v, acts, j - 1);
    }
  }

  /** A restage that meets a pending failure hides it: from then on the volume keeps the new size and
      the refund stays owed, in any interleaving, if and only if nothing settles it. */
  lemma RestageHidesFailure(v0: Volume, n: int, v: Volume, acts: seq<Action>, i: nat)
    requires v0.size < n && i < |acts| && HitsFailure(v0, n, v, acts, i)
    ensures Run(v, acts[..i + 1]).status.VolumeReady?
    ensures (forall j :: i < j <= |acts| ==> OwedAfter(v0.size, n, v, acts, j))
            <==> forall k :: i < k < |acts| ==> !SettlesAt(v, acts, k)
  {
    ExitIsFinishOrRestage(v0, n, v, acts, i);
    RestagedIsReady(v, acts, i);
    assert OwedAfter(v0.size, n, v, acts, i + 1);
    hide Run, Act, OwedAfter, SettlesAt, HitsFailure, FinishesAt;
    if forall j :: i < j <= |acts| ==> OwedAfter(v0.size, n, v, acts, j) {
      forall k | i < k < |acts| ensures !SettlesAt(v, acts, k) {
        assert OwedAfter(v0.size, n, v, acts, k) && OwedAfter(v0.size, n, v, acts, k + 1);
        OwedOneMore(v0.size, n, v, acts, k);
      }
    }
    if forall k :: i < k < |acts| ==> !SettlesAt(v, acts, k) {
      forall j | i < j <= |acts| ensures OwedAfter(v0.size, n, v, acts, j) {
        OwedWhileUnsettled(v0.size, n, v, acts, i + 1, j);
      }
    }
  }

  lemma RestagedIsReady(v: Volume, acts: seq<Action>, i: nat)
    requires i < |acts| && Run(v, acts[..i]).status.Failed? && Stages(acts[i])
    ensures Run(v, acts[..i + 1]).status.VolumeReady?
  {
    OneMoreStep(v, acts, i);
    hide Run;
  }

  /** A finishing call moves bytes back only while the saved capacity is present; the first one
      that does consumes it, so between two expansions at most one call refunds. */
  predicate Refunds(v: Volume) {
    v.status.Failed? && v.previousCapacity.Some?
  }

  lemma {:induction false} RefundAtMostOnce(v: Volume, acts: seq<Action>)
    requires Refunds(v)
    requires forall i :: 0 <= i < |acts| ==> !acts[i].ExpandStart?
    ensures !Refunds(Run(Act(v, ExpandFinish), acts))
    ensures Run(Act(v, ExpandFinish), acts).previousCapacity.None?
  {
    if acts != [] { RefundAtMostOnce(v, acts[..|acts| - 1]); }
  }
}
