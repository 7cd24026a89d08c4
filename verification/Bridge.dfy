// The operations proved elsewhere are events of the reservation protocol: the extender's writes, the
// creation of volumes as the run of its single reads and writes, and every other step that moves capacity.

module Bridge {
  import opened Types
  import opened Align
  import opened Accounting
  import opened Lifecycle
  import opened Stores
  import opened VolumeOps
  import opened SchedulerExtender
  import L = Ledger
  import P = Protocol

  /** The part of a store that the protocol is about. */
  ghost function Seen(s: Store, users: map<string, string>, worker: P.Worker, flight: Option<P.Flight>, home: map<string, string>): P.World {
    P.World(s.acs, s.acrs, users, worker, flight, home)
  }

  /** createReservation, for requests with distinct names and at least one node that has an ID. */
  lemma RequestIsEvent(sequential: bool, w: P.World, namespace: string, name: string, nodes: seq<KubeNode>, caps: seq<CapacityRequest>)
    requires name !in w.acrs && NodeIds(nodes) != []
    requires forall i, j :: 0 <= i < j < |caps| ==> caps[i].name != caps[j].name
    ensures var acr := ACR(name, namespace, Requested, Unreserved(caps), NodeIds(nodes), []);
            P.Next(sequential, w, P.Requests(acr), w.(acrs := w.acrs[name := acr]))
  {
  }

  /** resendReservationRequest as handleReservation calls it: rejected, or reserved without a match. */
  lemma ResendIsEvent(sequential: bool, w: P.World, name: string, nodes: seq<KubeNode>)
    requires name in w.acrs && w.acrs[name].name == name && !w.acrs[name].status.Requested? && NodeIds(nodes) != []
    requires w.acrs[name].status.Reserved? ==> MatchedNodes(nodes, w.acrs[name].reserved) == []
    ensures P.Next(sequential, w, P.Resends(name, NodeIds(nodes)), w.(acrs := w.acrs[name := Resent(w.acrs[name], NodeIds(nodes))]))
  {
    var r := w.acrs[name];
    forall k | k in NodeIds(nodes) && r.status.Reserved? ensures k !in r.reserved {
      var n :| n in nodes && HasId(n) && n.id.value == k;
      assert k in r.reserved ==> n in MatchedNodes(nodes, r.reserved);
    }
  }

  // ---- CreateVolume ----

  /** A sequence of steps, from any state. */
  ghost predicate Steps(sequential: bool, ws: seq<P.World>, es: seq<P.Event>) {
    |ws| == |es| + 1 && forall k :: 0 <= k < |es| ==> P.Next(sequential, ws[k], es[k], ws[k + 1])
  }

  lemma OneStep(sequential: bool, ws: seq<P.World>, es: seq<P.Event>, e: P.Event, t: P.World)
    returns (xs: seq<P.World>, fs: seq<P.Event>)
    requires Steps(sequential, ws, es) && P.Next(sequential, ws[|es|], e, t)
    ensures Steps(sequential, xs, fs) && xs[0] == ws[0] && xs[|fs|] == t && fs == es + [e]
  {
    hide P.Next;
    xs, fs := ws + [t], es + [e];
    forall k | 0 <= k < |fs| ensures P.Next(sequential, xs[k], fs[k], xs[k + 1]) {
      if k < |es| { assert P.Next(sequential, ws[k], es[k], ws[k + 1]); }
    }
  }

  /** What a call for request num of acr holds after it has read or converted its AC. */
  function Holds(acr: ACR, num: nat, node: string, ac: Option<AC>, placed: Option<string>, taken: bool): Option<P.Flight> {
    Some(P.Flight(acr, num, node, ac, placed, taken))
  }

  /** What CreateVolume relies on: request num of a reserved ACR, and the AC its search found. */
  predicate Serves(s: Store, acr: ACR, num: nat, v: VolumeSpec, a: string) {
    && acr.name in s.acrs && s.acrs[acr.name] == acr && acr.status.Reserved? && num < |acr.requests|
    && FindCapacity(s.acs, acr.requests[num].reservations, v.nodeId) == Found(a) && a in s.acs
  }

  /** Reading the reservation and the AC. */
  lemma ReadingSteps(sequential: bool, s: Store, users: map<string, string>, worker: P.Worker, home: map<string, string>,
                     acr: ACR, num: nat, v: VolumeSpec, a: string) returns (ws: seq<P.World>, es: seq<P.Event>)
    requires Serves(s, acr, num, v, a)
    ensures Steps(sequential, ws, es) && ws[0] == Seen(s, users, worker, None, home)
    ensures ws[|es|] == Seen(s, users, worker, Holds(acr, num, v.nodeId, Some(s.acs[a]), None, false), home)
    ensures es == [P.Begins(acr.name, num, v.nodeId), P.Finds(a)]
  {
    FoundOnNode(s.acs, acr.requests[num].reservations, v.nodeId);
    hide FindCapacity;
    ws, es := [Seen(s, users, worker, None, home)], [];
    ws, es := OneStep(sequential, ws, es, P.Begins(acr.name, num, v.nodeId),
                      Seen(s, users, worker, Holds(acr, num, v.nodeId, None, None, false), home));
    ws, es := OneStep(sequential, ws, es, P.Finds(a),
                      Seen(s, users, worker, Holds(acr, num, v.nodeId, Some(s.acs[a]), None, false), home));
  }

  /** The AC is made fit for the volume: an LVG is created and the AC moved onto it and read again, if the class demands it. */
  lemma ConversionSteps(sequential: bool, s: Store, users: map<string, string>, worker: P.Worker, home: map<string, string>,
                        acr: ACR, num: nat, v: VolumeSpec, a: string, lvgName: string)
    returns (ws: seq<P.World>, es: seq<P.Event>)
    requires Serves(s, acr, num, v, a) && s.acs[a].name == a && acr.requests[num].cap.sc == v.sc
    ensures var t := WithLVG(s, v, a, lvgName);
            && a in t.acs && t.acs[a].name == a && t.acrs == s.acrs
            && Steps(sequential, ws, es) && ws[0] == Seen(s, users, worker, None, home)
            && ws[|es|] == Seen(t, users, worker, Holds(acr, num, v.nodeId, Some(t.acs[a]), None, false), home)
    ensures es == [P.Begins(acr.name, num, v.nodeId), P.Finds(a)]
                  + if NeedsConversion(s.acs[a], v.sc) then [P.Converts(WithLVG(s, v, a, lvgName).acs[a]), P.Finds(a)] else []
  {
    FoundOnNode(s.acs, acr.requests[num].reservations, v.nodeId);
    hide FindCapacity, UsableSize, Locations;
    ws, es := ReadingSteps(sequential, s, users, worker, home, acr, num, v, a);
    var t := WithLVG(s, v, a, lvgName);
    if NeedsConversion(s.acs[a], v.sc) {
      assert t.acs == s.acs[a := t.acs[a]];
      ws, es := OneStep(sequential, ws, es, P.Converts(t.acs[a]),
                        Seen(t, users, worker, Holds(acr, num, v.nodeId, Some(s.acs[a]), None, false), home));
      ws, es := OneStep(sequential, ws, es, P.Finds(a),
                        Seen(t, users, worker, Holds(acr, num, v.nodeId, Some(t.acs[a]), None, false), home));
    }
  }

  /** The volume takes the whole drive, or a part of an LVG. */
  function UsersWith(users: map<string, string>, ac: AC, id: string): map<string, string> {
    if IsLVG(ac.sc) then users else users[id := ac.name]
  }

  /** The Volume CR, the AC, and the release. */
  lemma PlacingSteps(sequential: bool, s: Store, users: map<string, string>, worker: P.Worker, home: map<string, string>,
                     acr: ACR, num: nat, v: VolumeSpec, a: string, paid: bool, ws: seq<P.World>, es: seq<P.Event>)
    returns (xs: seq<P.World>, fs: seq<P.Event>)
    requires Steps(sequential, ws, es) && a in s.acs && s.acs[a].name == a && num < |acr.requests|
    requires ws[|es|] == Seen(s, users, worker, Holds(acr, num, v.nodeId, Some(s.acs[a]), None, false), home)
    requires acr.name in s.acrs && s.acrs[acr.name] == acr && v.id !in users
    requires IsLVG(acr.requests[num].cap.sc) ==> IsLVG(s.acs[a].sc)
    ensures var t := Placed(s, v, a, paid);
            && Steps(sequential, xs, fs) && xs[0] == ws[0]
            && xs[|fs|] == Seen(t.(acrs := Released(t.acrs, acr, num)), UsersWith(users, s.acs[a], v.id), worker, None, home)
    ensures fs == es + [P.Places(v.id)] + (if paid then [P.Takes(Allocated(s.acs[a], v))] else []) + [P.Releases]
  {
    hide Allocated, Released;
    var t, u := Placed(s, v, a, paid), UsersWith(users, s.acs[a], v.id);
    xs, fs := OneStep(sequential, ws, es, P.Places(v.id),
                      Seen(s, u, worker, Holds(acr, num, v.nodeId, Some(s.acs[a]), Some(v.id), false), home));
    if paid {
      assert t.acs == s.acs[a := P.Taken(s.acs[a], Allocated(s.acs[a], v))];
      xs, fs := OneStep(sequential, xs, fs, P.Takes(Allocated(s.acs[a], v)),
                        Seen(t, u, worker, Holds(acr, num, v.nodeId, Some(s.acs[a]), Some(v.id), true), home));
    }
    ReleaseStep(sequential, t, u, worker, home, acr, num, v.nodeId, Some(s.acs[a]), Some(v.id), paid);
    xs, fs := OneStep(sequential, xs, fs, P.Releases, Seen(t.(acrs := Released(t.acrs, acr, num)), u, worker, None, home));
  }

  lemma ReleaseStep(sequential: bool, s: Store, users: map<string, string>, worker: P.Worker, home: map<string, string>,
                    acr: ACR, num: nat, node: string, ac: Option<AC>, placed: Option<string>, taken: bool)
    requires num < |acr.requests| && acr.name in s.acrs && s.acrs[acr.name] == acr
    ensures P.Next(sequential, Seen(s, users, worker, Holds(acr, num, node, ac, placed, taken), home), P.Releases,
                   Seen(s.(acrs := Released(s.acrs, acr, num)), users, worker, None, home))
  {
  }

  /** A successful CreateVolume for request num of a reserved ACR, on the AC its search found, is the run of its steps,
      and that run leaves the store in the state proved for the method. */
  lemma CreationIsRun(sequential: bool, s: Store, users: map<string, string>, worker: P.Worker, home: map<string, string>,
                      acr: ACR, num: nat, v: VolumeSpec, a: string, lvgName: string, paid: bool)
    returns (ws: seq<P.World>, es: seq<P.Event>)
    requires Keyed(s) && Serves(s, acr, num, v, a) && acr.requests[num].cap.sc == v.sc && v.id !in users
    ensures s.acs[a].name == a
    ensures var w, t := WithLVG(s, v, a, lvgName), VolumeCreated(s, acr, num, v, a, lvgName, paid);
            && a in w.acs && Steps(sequential, ws, es) && ws[0] == Seen(s, users, worker, None, home)
            && ws[|es|] == Seen(t, UsersWith(users, w.acs[a], v.id), worker, None, home)
            && es == [P.Begins(acr.name, num, v.nodeId), P.Finds(a)]
                     + (if NeedsConversion(s.acs[a], v.sc) then [P.Converts(w.acs[a]), P.Finds(a)] else [])
                     + [P.Places(v.id)] + (if paid then [P.Takes(Allocated(w.acs[a], v))] else []) + [P.Releases]
  {
    assert s.acs[a].name == a;
    hide Keyed, FindCapacity, UsableSize, Locations, Released, Allocated, Steps;
    ws, es := ConversionSteps(sequential, s, users, worker, home, acr, num, v, a, lvgName);
    ws, es := PlacingSteps(sequential, WithLVG(s, v, a, lvgName), users, worker, home, acr, num, v, a, paid, ws, es);
  }

  // ---- what the planner counts is what creations take ----

  /** The volume of a request on an LVG has the bytes that the planner requires for it, and lvcreate gets them without loss. */
  lemma CreationTakesRequired(s: Store, v: VolumeSpec, a: string, lvgName: string, r: CapacityRequest, acr: ACR, num: nat)
    requires a in s.acs && s.acs[a].name == a && num < |acr.requests| && IsLVG(v.sc) && r.sc == v.sc && r.size == v.size
    ensures var t, u := VolumeCreated(s, acr, num, v, a, lvgName, true), WithLVG(s, v, a, lvgName);
            && v.id in t.volumes && a in t.acs && a in u.acs && t.volumes[v.id].size == Required(r)
            && u.acs[a].size - t.acs[a].size == Required(r)
            && var (mib, lost) := ToSizeUnit(t.volumes[v.id].size, 1, MBYTE); !lost && mib * MBYTE == Required(r)
  {
    AlignedSizeIsWholeMiB(v.size);
    hide UsableSize, Locations, Released, ToSizeUnit, AlignPE;
  }

  /** The bytes that the volumes of all requests naming a take from it once they are created there. */
  function TakenByAll(rs: seq<ReservationRequest>, a: string, ac: AC): int {
    if rs == [] then 0
    else
      var last := rs[|rs| - 1];
      TakenByAll(rs[..|rs| - 1], a, ac) + Mentions(last.reservations, a, NewVolume(ac, VolumeSpec("", "", last.cap.sc, last.cap.size)).size)
  }

  /** They are the total that the bounds on over-commitment speak of. */
  lemma {:induction false} AlignedTotalIsTaken(rs: seq<ReservationRequest>, a: string, ac: AC)
    requires IsLVG(ac.sc)
    ensures TakenByAll(rs, a, ac) == AlignedTotal(rs, a)
  {
    if rs != [] { AlignedTotalIsTaken(rs[..|rs| - 1], a, ac); }
  }

  // ---- everything else ----

  /** The volumes that take whole drives after a step: only a deletion changes them. */
  function UsersAfter(users: map<string, string>, e: L.Event): map<string, string> {
    if e.Delete? then users - {e.deleted} else users
  }

  /** Deleting, expanding and settling volumes, and everything that happens to them on the node, never
      takes a drive's capacity away, and gives it back only with the volume that took it. */
  lemma OtherStepsAreEvents(sequential: bool, s: Store, users: map<string, string>, worker: P.Worker,
                            flight: Option<P.Flight>, home: map<string, string>, e: L.Event)
    requires L.Shape(s) && L.Enabled(s, e) && !e.Create? && !e.CreateWithoutPVC? && !e.Reservations?
    requires forall i :: i in s.volumes ==> s.volumes[i].size >= 0
    requires e.Delete? && !s.volumes[e.deleted].onLVM ==> P.UsedBy(users, e.deleted, e.deletedAC)
    ensures var t, u := L.Apply(s, e), UsersAfter(users, e);
            P.Next(sequential, Seen(s, users, worker, flight, home), P.CapacityChanges(t.acs, u), Seen(t, u, worker, flight, home))
  {
    var a := match e
      case Delete(_, b) => b
      case Expand(_, _, b) => b
      case Settle(_, _, b) => b
      case _ => "";
    hide L.Shape, L.Apply, L.Enabled, P.NoWorse, P.Next;
    TouchedAC(s, e);
    NoWorseElsewhere(s, e, a);
    FreesOnlyDeleted(s, users, e, a);
    CapacityStep(sequential, Seen(s, users, worker, flight, home), L.Apply(s, e).acs, UsersAfter(users, e));
  }

  lemma CapacityStep(sequential: bool, w: P.World, m: map<string, AC>, u: map<string, string>)
    requires forall a :: a in m ==> a in w.acs && P.NoWorse(w.acs[a], m[a])
    requires P.Frees(w.acs, m, w.users, u)
    ensures P.Next(sequential, w, P.CapacityChanges(m, u), w.(acs := m, users := u))
  {
  }

  /** No step but a deletion changes the AC of a drive, and a deletion that changes it is of a volume on it. */
  lemma FreesOnlyDeleted(s: Store, users: map<string, string>, e: L.Event, a: string)
    requires L.Shape(s) && L.Enabled(s, e) && !e.Create? && !e.CreateWithoutPVC? && !e.Reservations?
    requires e.Delete? ==> a == e.deletedAC
    requires e.Expand? ==> a == e.expandAC && a in s.acs && IsLVG(s.acs[a].sc)
    requires e.Settle? ==> a == e.settledAC && a in s.acs && IsLVG(s.acs[a].sc)
    requires e.Delete? && !s.volumes[e.deleted].onLVM ==> P.UsedBy(users, e.deleted, e.deletedAC)
    ensures P.Frees(s.acs, L.Apply(s, e).acs, users, UsersAfter(users, e))
  {
    OnlyOneAC(s, e, a);
    var m, u := L.Apply(s, e).acs, UsersAfter(users, e);
    if e.Delete? && s.volumes[e.deleted].onLVM { DeletedFromLVG(s, e.deleted, a); }
    hide L.Shape, L.Apply, L.Enabled;
    forall b, id | b in m && b in s.acs && P.Refilled(s.acs[b], m[b]) && P.UsedBy(users, id, b)
      ensures exists gone :: P.UsedBy(users, gone, b) && gone !in u
    {
      assert b == a && e.Delete?;
      assert P.UsedBy(users, e.deleted, b) && e.deleted !in u;
    }
  }

  lemma DeletedFromLVG(s: Store, i: string, a: string)
    requires L.Shape(s) && i in s.volumes && ACAt(s, s.volumes[i].location, a) && s.volumes[i].onLVM
    ensures IsLVG(s.acs[a].sc)
  {
    L.ACPlace(s, a);
    L.LVMVolumeAt(s, i);
  }

  lemma OnlyOneAC(s: Store, e: L.Event, a: string)
    requires Keyed(s) && L.Enabled(s, e) && !e.Create? && !e.CreateWithoutPVC? && !e.Reservations?
    requires e.Delete? ==> a == e.deletedAC
    requires e.Expand? ==> a == e.expandAC
    requires e.Settle? ==> a == e.settledAC
    ensures forall b :: b in s.acs && b in L.Apply(s, e).acs && s.acs[b] != L.Apply(s, e).acs[b] ==>
              b == a && (e.Delete? || e.Expand? || e.Settle?)
  {
    hide Keyed, ACAfterDeletion, LVGsAfterDeletion, Act, Reconciled, ExpandStarted, ExpandFinished, DriveAndLVG;
  }

  lemma TouchedAC(s: Store, e: L.Event)
    requires L.Shape(s) && L.Enabled(s, e) && forall i :: i in s.volumes ==> s.volumes[i].size >= 0
    ensures Keyed(s)
    ensures e.Delete? ==> e.deletedAC in s.acs && e.deleted in s.volumes
                          && P.NoWorse(s.acs[e.deletedAC], VolumeDeleted(s, e.deleted, e.deletedAC).acs[e.deletedAC])
    ensures e.Expand? ==> e.expandAC in s.acs && IsLVG(s.acs[e.expandAC].sc)
    ensures e.Settle? ==> e.settledAC in s.acs && IsLVG(s.acs[e.settledAC].sc)
  {
    if e.Delete? {
      DeletionIsNoWorse(s, e.deleted, e.deletedAC);
    } else if e.Expand? {
      L.ACPlace(s, e.expandAC);
      LVGHasNoDrive(s, e.expandAC);
    } else if e.Settle? {
      L.ACPlace(s, e.settledAC);
      L.LVMVolumeAt(s, e.settled);
    }
    hide L.ACsInPlace, L.LVGsInPlace, L.VolumesInPlace, VolumeDeleted;
  }

  lemma LVGHasNoDrive(s: Store, a: string)
    requires L.Shape(s) && a in s.acs && s.acs[a].location !in s.drives
    ensures IsLVG(s.acs[a].sc)
  {
  }

  lemma DeletionIsNoWorse(s: Store, i: string, a: string)
    requires L.Shape(s) && i in s.volumes && ACAt(s, s.volumes[i].location, a) && s.volumes[i].size >= 0
    ensures P.NoWorse(s.acs[a], VolumeDeleted(s, i, a).acs[a])
  {
    L.ACPlace(s, a);
    L.LVMVolumeAt(s, i);
    hide L.Shape;
  }

  lemma NodeStepsKeepACs(s: Store, e: L.Event)
    requires L.Enabled(s, e) && Keyed(s) && (e.VolumeAction? || e.Prepare? || e.LVGReady? || e.RemoveLVG?)
    ensures L.Apply(s, e).acs == s.acs && L.Apply(s, e).acrs == s.acrs
  {
    hide Keyed, Act, Reconciled, Built;
  }

  lemma OneACChanges(s: Store, e: L.Event, a: string)
    requires L.Enabled(s, e) && Keyed(s) && (e.Delete? || e.Expand? || e.Settle?)
    requires a == if e.Delete? then e.deletedAC else if e.Expand? then e.expandAC else e.settledAC
    ensures a in s.acs && a in L.Apply(s, e).acs && L.Apply(s, e).acrs == s.acrs
    ensures L.Apply(s, e).acs == s.acs[a := L.Apply(s, e).acs[a]]
    ensures !e.Delete? ==> L.Apply(s, e).acs[a] == s.acs[a].(size := L.Apply(s, e).acs[a].size)
  {
    hide Keyed, ACAfterDeletion, LVGsAfterDeletion, ExpandStarted, ExpandFinished, DriveAndLVG;
  }

  /** A step changes at most one AC, and an LVG's AC may change at will. */
  lemma NoWorseElsewhere(s: Store, e: L.Event, a: string)
    requires L.Enabled(s, e) && Keyed(s) && !e.Create? && !e.CreateWithoutPVC? && !e.Reservations?
    requires e.Delete? ==> a == e.deletedAC && a in s.acs && P.NoWorse(s.acs[a], VolumeDeleted(s, e.deleted, a).acs[a])
    requires e.Expand? ==> a == e.expandAC && IsLVG(s.acs[a].sc)
    requires e.Settle? ==> a == e.settledAC && IsLVG(s.acs[a].sc)
    ensures var t := L.Apply(s, e);
            t.acrs == s.acrs && t.acs.Keys == s.acs.Keys && forall b :: b in s.acs ==> P.NoWorse(s.acs[b], t.acs[b])
  {
    if e.Delete? || e.Expand? || e.Settle? {
      OneACChanges(s, e, a);
      assert e.Delete? ==> L.Apply(s, e) == VolumeDeleted(s, e.deleted, a);
    } else {
      NodeStepsKeepACs(s, e);
    }
    hide L.Apply, L.Enabled, Keyed, VolumeDeleted;
  }
}
