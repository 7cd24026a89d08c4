// The reservation controller (pkg/crcontrollers/reservation/reservationcontroller.go), the helper
// that writes a plan into an ACR and releases requests (pkg/base/capacityplanner/helpers.go), and
// the lookups of placing_plan.go.

module Reservation {
  import opened Types
  import opened Greedy
  import opened Planner

  type Plan = map<string, NodePlan>

  /** The volumes built from the requests (reservationcontroller.go:112-116). */
  function VolumesOf(rs: seq<ReservationRequest>): (vols: seq<Vol>)
    ensures |vols| == |rs| && forall i :: 0 <= i < |rs| ==> vols[i] == Vol(i, rs[i].cap)
  {
    seq(|rs|, i requires 0 <= i < |rs| => Vol(i, rs[i].cap))
  }

  // ---- placing_plan.go ----

  /** GetVolumesToACMapping. */
  function VolumesToACMapping(plan: Plan, node: string): Option<NodePlan> {
    if node == "" then None else if node in plan then Some(plan[node]) else None
  }

  /** The AC each visited node offers for v, in visiting order. */
  function ACsAlong(plan: Plan, nodes: seq<string>, v: Vol): seq<string>
    requires forall n :: n in nodes ==> n in plan
  {
    if nodes == [] then []
    else
      var last := nodes[|nodes| - 1];
      ACsAlong(plan, nodes[..|nodes| - 1], v) + (if v in plan[last] then [plan[last][v]] else [])
  }

  ghost predicate Visits(plan: Plan, nodes: seq<string>) {
    Distinct(nodes) && forall n :: n in nodes <==> n in plan
  }

  /** GetACsForVolumes: two nested map iterations, each in an arbitrary order. */
  method GetACsForVolumes(plan: Plan) returns (m: map<Vol, seq<string>>, ghost visited: seq<string>)
    ensures Visits(plan, visited)
    ensures forall v :: v in m <==> exists n :: n in plan && v in plan[n]
    ensures forall v :: v in m ==> m[v] == ACsAlong(plan, visited, v)
  {
    m, visited := map[], [];
    var todo := plan.Keys;
    while todo != {}
      invariant todo <= plan.Keys && Distinct(visited)
      invariant forall n :: n in visited <==> n in plan && n !in todo
      invariant forall v :: v in m <==> exists n :: n in visited && v in plan[n]
      invariant forall v :: v in m ==> m[v] == ACsAlong(plan, visited, v)
      decreases todo
    {
      var node :| node in todo;
      m := AppendNode(plan, visited, node, m);
      visited := visited + [node];
      todo := todo - {node};
    }
  }

  method AppendNode(plan: Plan, ghost visited: seq<string>, node: string, m: map<Vol, seq<string>>)
    returns (r: map<Vol, seq<string>>)
    requires node in plan && forall n :: n in visited ==> n in plan
    requires forall v :: v in m <==> exists n :: n in visited && v in plan[n]
    requires forall v :: v in m ==> m[v] == ACsAlong(plan, visited, v)
    ensures forall v :: v in r <==> exists n :: n in visited + [node] && v in plan[n]
    ensures forall v :: v in r ==> r[v] == ACsAlong(plan, visited + [node], v)
  {
    r := m;
    var vols := plan[node].Keys;
    while vols != {}
      invariant vols <= plan[node].Keys
      invariant forall v :: v in r <==> v in m || (v in plan[node] && v !in vols)
      invariant forall v :: v in r ==>
                  r[v] == (if v in m then m[v] else []) + (if v in plan[node] && v !in vols then [plan[node][v]] else [])
      decreases vols
    {
      var vol :| vol in vols;
      r := r[vol := (if vol in r then r[vol] else []) + [plan[node][vol]]];
      vols := vols - {vol};
    }
    forall v ensures v in r <==> exists n :: n in visited + [node] && v in plan[n] {
      if v in plan[node] { assert node in visited + [node]; }
      if v in m { var n :| n in visited && v in plan[n]; assert n in visited + [node]; }
    }
    hide ACsAlong;
    forall v | v in r ensures r[v] == ACsAlong(plan, visited + [node], v) {
      AlongAppended(plan, visited, node, v);
      if v !in m { NoACs(plan, visited, v); }
    }
  }

  lemma AlongAppended(plan: Plan, nodes: seq<string>, node: string, v: Vol)
    requires node in plan && forall n :: n in nodes ==> n in plan
    ensures ACsAlong(plan, nodes + [node], v) == ACsAlong(plan, nodes, v) + (if v in plan[node] then [plan[node][v]] else [])
  {
    assert (nodes + [node])[..|nodes|] == nodes;
  }

  lemma {:induction false} NoACs(plan: Plan, nodes: seq<string>, v: Vol)
    requires forall n :: n in nodes ==> n in plan && v !in plan[n]
    ensures ACsAlong(plan, nodes, v) == []
  {
    if nodes != [] { NoACs(plan, nodes[..|nodes| - 1], v); }
  }

  // ---- helpers.go: UpdateReservation ----

  /** The request afterwards lists, for some volume with its name, that volume's AC on every planned node. */
  ghost predicate Filled(plan: Plan, visited: seq<string>, vols: seq<Vol>, before: ReservationRequest, after: ReservationRequest)
    requires Visits(plan, visited)
  {
    && after.cap == before.cap
    && exists v :: v in vols && v.req.name == before.cap.name && after.reservations == ACsAlong(plan, visited, v)
  }

  ghost predicate AllFilled(plan: Plan, visited: seq<string>, vols: seq<Vol>,
                            before: seq<ReservationRequest>, after: seq<ReservationRequest>) {
    && Visits(plan, visited) && |after| == |before|
    && (forall i :: 0 <= i < |before| ==> Filled(plan, visited, vols, before[i], after[i]))
    && SharedByName(after)
  }

  /** Requests are filled by name, so those of one name get the same ACs. */
  ghost predicate SharedByName(rs: seq<ReservationRequest>) {
    forall i, j :: 0 <= i < |rs| && 0 <= j < |rs| && rs[i].cap.name == rs[j].cap.name ==> rs[i].reservations == rs[j].reservations
  }

  /** helpers.go:59-62: later volumes of the same name overwrite earlier ones, in map order. */
  method NameToCapacity(plan: Plan, ghost vols: seq<Vol>)
    returns (nameToCapacity: map<string, seq<string>>, ghost visited: seq<string>)
    requires plan != map[] && forall n, v :: n in plan ==> (v in plan[n] <==> v in vols)
    ensures Visits(plan, visited)
    ensures forall v :: v in vols ==> v.req.name in nameToCapacity
    ensures forall name :: name in nameToCapacity ==>
              exists v :: v in vols && v.req.name == name && nameToCapacity[name] == ACsAlong(plan, visited, v)
  {
    hide ACsAlong;
    var acsFor;
    acsFor, visited := GetACsForVolumes(plan);
    var n0 :| n0 in plan;
    assert forall v :: v in acsFor <==> v in vols by {
      forall v ensures v in acsFor <==> v in vols {
        if v in vols { assert v in plan[n0]; }
      }
    }
    nameToCapacity := map[];
    var todo := acsFor.Keys;
    while todo != {}
      invariant todo <= acsFor.Keys
      invariant forall v :: v in acsFor && v !in todo ==> v.req.name in nameToCapacity
      invariant forall name :: name in nameToCapacity ==>
                  exists v :: v in vols && v.req.name == name && nameToCapacity[name] == ACsAlong(plan, visited, v)
      decreases todo
    {
      var volume :| volume in todo;
      nameToCapacity := nameToCapacity[volume.req.name := acsFor[volume]];
      todo := todo - {volume};
    }
  }

  ghost predicate EachHasVolume(rs: seq<ReservationRequest>, vols: seq<Vol>) {
    forall i :: 0 <= i < |rs| ==> exists v :: v in vols && v.req.name == rs[i].cap.name
  }

  method UpdateReservation(plan: Plan, nodes: seq<string>, reservation: ACR, ghost vols: seq<Vol>)
    returns (updated: ACR, ghost visited: seq<string>)
    requires plan != map[] && forall n, v :: n in plan ==> (v in plan[n] <==> v in vols)
    requires EachHasVolume(reservation.requests, vols)
    ensures AllFilled(plan, visited, vols, reservation.requests, updated.requests)
    ensures updated == reservation.(status := Reserved, reserved := nodes, requests := updated.requests)
  {
    hide ACsAlong;
    var nameToCapacity;
    nameToCapacity, visited := NameToCapacity(plan, vols);
    var requests: seq<ReservationRequest> := [];
    for i := 0 to |reservation.requests|
      invariant |requests| == i
      invariant forall k :: 0 <= k < i ==> Filled(plan, visited, vols, reservation.requests[k], requests[k])
      invariant forall k :: 0 <= k < i && requests[k].cap.name in nameToCapacity ==>
                  requests[k].reservations == nameToCapacity[requests[k].cap.name]
    {
      var request := reservation.requests[i];
      var acs := if request.cap.name in nameToCapacity then nameToCapacity[request.cap.name] else [];
      requests := requests + [request.(reservations := acs)];
    }
    assert forall k :: 0 <= k < |requests| ==> requests[k].cap.name in nameToCapacity;
    updated := reservation.(requests := requests);
    updated := updated.(reserved := nodes);
    updated := updated.(status := Reserved);
  }

  // ---- handleReservationUpdate ----

  datatype Decision = Ignore | Requeue | Confirm(acr: ACR) | Reject(acr: ACR)

  function Matched(plan: Plan, requested: seq<string>): (r: seq<string>)
    ensures forall n :: n in r <==> n in requested && n != "" && n in plan
    ensures (forall n :: n in requested ==> n != "" && n in plan) ==> r == requested
  {
    if requested == [] then []
    else
      var last := requested[|requested| - 1];
      assert requested == requested[..|requested| - 1] + [last];
      Matched(plan, requested[..|requested| - 1]) + (if VolumesToACMapping(plan, last).Some? then [last] else [])
  }

  /** The confirmed ACR comes from this plan. */
  ghost predicate ConfirmedBy(acs: seq<AC>, acrs: seq<ACR>, r: ACR, r': ACR,
                              plan: Plan, visited: seq<string>, vols: seq<Vol>) {
    && plan != map[]
    && multiset(vols) == multiset(VolumesOf(r.requests)) && VolSorted(vols)
    && (forall n :: n in plan ==> n in r.requested && Planned(acs, acrs, n, vols, plan[n]))
    && AllFilled(plan, visited, vols, r.requests, r'.requests)
    && r' == r.(status := Reserved, reserved := Matched(plan, r.requested), requests := r'.requests)
    && r'.reserved != []
  }

  ghost predicate Decides(sequential: bool, acs: seq<AC>, acrs: seq<ACR>, r: ACR, d: Decision) {
    match d
    case Ignore => !r.status.Requested?
    case Requeue => r.status.Requested? && sequential && LVGCapacityReserved(VolumesOf(r.requests), acrs)
    case Confirm(r') =>
      && r.status.Requested? && !(sequential && LVGCapacityReserved(VolumesOf(r.requests), acrs))
      && exists plan, visited, vols :: ConfirmedBy(acs, acrs, r, r', plan, visited, vols)
    case Reject(r') =>
      && r.status.Requested? && !(sequential && LVGCapacityReserved(VolumesOf(r.requests), acrs))
      && r' == r.(status := Rejected)
  }

  /** For HDD, SSD and NVMe, and for ANY where the free ACs ascend, the controller reserves exactly the nodes whose free drives can hold all requests. */
  ghost predicate Exhaustive(acs: seq<AC>, acrs: seq<ACR>, r: ACR, d: Decision) {
    r.status.Requested? && !d.Requeue? && Distinct(r.requested) && "" !in r.requested ==>
      forall n :: n in r.requested && Predictable(VolumesOf(r.requests), FreeACs(acs, acrs, n)) ==>
        ((d.Confirm? && n in d.acr.reserved) <==> acs != [] && Feasible(FreeACs(acs, acrs, n), Elements(VolumesOf(r.requests))))
  }

  /** Every requested node that is not reserved was left out for want of capacity. */
  ghost predicate Justified(acs: seq<AC>, acrs: seq<ACR>, r: ACR, d: Decision) {
    r.status.Requested? && !d.Requeue? && Distinct(r.requested) && "" !in r.requested ==>
      exists vols :: AsPlanned(r, vols)
        && forall n :: n in r.requested && !(d.Confirm? && n in d.acr.reserved) ==> LeftOut(acs, acrs, n, vols)
  }

  /** The volumes of the ACR in the order of planning. */
  ghost predicate AsPlanned(r: ACR, vols: seq<Vol>) {
    multiset(vols) == multiset(VolumesOf(r.requests)) && VolSorted(vols)
  }

  /** A RESERVED ACR asks for an LVG class that this one asks for too. */
  ghost predicate SameLVGClassReserved(r: ACR, acrs: seq<ACR>) {
    exists k, i, j :: 0 <= k < |acrs| && acrs[k].status.Reserved? && SameLVGClass(r, i, acrs[k], j)
  }

  predicate SameLVGClass(r: ACR, i: int, q: ACR, j: int) {
    && 0 <= i < |r.requests| && 0 <= j < |q.requests|
    && IsLVG(r.requests[i].cap.sc) && r.requests[i].cap.sc == q.requests[j].cap.sc
  }

  lemma ReservedClass(r: ACR, acrs: seq<ACR>)
    ensures LVGCapacityReserved(VolumesOf(r.requests), acrs) <==> SameLVGClassReserved(r, acrs)
  {
    var vols := VolumesOf(r.requests);
    if LVGCapacityReserved(vols, acrs) {
      var k, q, v :| 0 <= k < |acrs| && acrs[k].status.Reserved? && q in acrs[k].requests
                     && v in vols && IsLVG(v.req.sc) && v.req.sc == q.cap.sc;
      var j :| 0 <= j < |acrs[k].requests| && acrs[k].requests[j] == q;
      var i :| 0 <= i < |vols| && vols[i] == v;
      assert SameLVGClass(r, i, acrs[k], j);
    }
    if k, i, j :| 0 <= k < |acrs| && acrs[k].status.Reserved? && SameLVGClass(r, i, acrs[k], j) {
      assert acrs[k].requests[j] in acrs[k].requests && vols[i] in vols;
    }
  }

  /** Everything handleReservationUpdate does before its single write (reservationcontroller.go:101-165). */
  method Decide(sequential: bool, reservation: ACR, acs: seq<AC>, acrs: seq<ACR>) returns (d: Decision)
    requires UniqueNames(acs)
    ensures d.Ignore? <==> !reservation.status.Requested?
    ensures d.Requeue? <==> reservation.status.Requested? && sequential && SameLVGClassReserved(reservation, acrs)
    ensures d.Reject? ==> d.acr == reservation.(status := Rejected)
    ensures d.Confirm? ==>
              && d.acr == reservation.(status := Reserved, reserved := d.acr.reserved, requests := d.acr.requests)
              && d.acr.reserved != [] && forall n :: n in d.acr.reserved ==> n in reservation.requested
    ensures Decides(sequential, acs, acrs, reservation, d)
    ensures Exhaustive(acs, acrs, reservation, d)
    ensures Justified(acs, acrs, reservation, d)
  {
    hide Planned, LeftOut, LVGCapacityReserved, VolSorted, Feasible, FreeACs, AllFilled, Predictable;
    ReservedClass(reservation, acrs);
    hide SameLVGClassReserved;
    if !reservation.status.Requested? { return Ignore; }
    var rs := reservation.requests;
    var volumes := new Vol[|rs|](i requires 0 <= i < |rs| => Vol(i, rs[i].cap));
    assert volumes[..] == VolumesOf(rs);
    var capManager := new CapacityManager(sequential);
    var result := capManager.PlanVolumesPlacing(volumes, reservation.requested, acs, acrs);
    if result.Retry? { return Requeue; }
    ghost var vols := volumes[..];
    assert AsPlanned(reservation, vols);
    if result.Placed? {
      PlannedKeys(acs, acrs, vols, result.plan);
      var matchedNodes := MatchNodes(result.plan, reservation.requested);
      if matchedNodes != [] {
        EveryRequestHasVolume(rs, vols);
        var updated, visited := UpdateReservation(result.plan, matchedNodes, reservation, vols);
        assert ConfirmedBy(acs, acrs, reservation, updated, result.plan, visited, vols);
        return Confirm(updated);
      }
    }
    return Reject(reservation.(status := Rejected));
  }

  lemma EveryRequestHasVolume(rs: seq<ReservationRequest>, vols: seq<Vol>)
    requires multiset(vols) == multiset(VolumesOf(rs))
    ensures EachHasVolume(rs, vols)
  {
    forall i | 0 <= i < |rs| ensures exists v :: v in vols && v.req.name == rs[i].cap.name {
      assert VolumesOf(rs)[i] in multiset(VolumesOf(rs));
      assert VolumesOf(rs)[i] in multiset(vols);
    }
  }

  method MatchNodes(plan: Plan, requested: seq<string>) returns (matched: seq<string>)
    ensures matched == Matched(plan, requested)
  {
    matched := [];
    for i := 0 to |requested|
      invariant matched == Matched(plan, requested[..i])
    {
      assert requested[..i + 1][..i] == requested[..i];
      var placingForNode := VolumesToACMapping(plan, requested[i]);
      if placingForNode.None? { continue; }
      matched := matched + [requested[i]];
    }
    assert requested[..|requested|] == requested;
  }

  lemma PlannedKeys(acs: seq<AC>, acrs: seq<ACR>, vols: seq<Vol>, plan: Plan)
    requires forall n :: n in plan ==> Planned(acs, acrs, n, vols, plan[n])
    ensures forall n, v :: n in plan ==> (v in plan[n] <==> v in vols)
  {
    forall n, v | n in plan ensures v in plan[n] <==> v in vols {
      var c, views, picks :| PlannedBy(acs, acrs, n, vols, plan[n], c, views, picks);
      assert vols[..|vols|] == vols;
    }
  }
}
