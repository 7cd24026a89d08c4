// What a confirmed reservation promises, derived from the way the plan was made and written.

module Confirmation {
  import opened Types
  import opened Align
  import opened Ordering
  import opened Accounting
  import opened Greedy
  import opened Planner
  import opened Reservation

  /** x is what the planner saw under name a, and it suits request r on node n. */
  predicate Suits(x: AC, a: string, n: string, r: CapacityRequest) {
    && x.name == a && x.nodeId == n && !x.tainted && ServesClass(x.sc, r.sc) && LabelOf(x.group) == r.group
    && (if IsLVG(r.sc) then AlignPE(r.size) else r.size) <= x.size
  }

  lemma PlanEntrySuits(acs: seq<AC>, acrs: seq<ACR>, n: string, vols: seq<Vol>, p: NodePlan, v: Vol) returns (x: AC)
    requires Planned(acs, acrs, n, vols, p) && Distinct(vols) && v in p
    ensures x in acs && Suits(x, p[v], n, v.req)
  {
    hide ConfirmedRequests, Covers, Step, Select, WellOrdered, AlignPE;
    var c, views, picks :| PlannedBy(acs, acrs, n, vols, p, c, views, picks);
    assert vols[..|vols|] == vols;
    var i :| 0 <= i < |vols| && vols[i] == v;
    PickFits(c, views, vols, picks, i);
    x := c.acs[picks[i]];
  }

  lemma PlanEntriesExclusive(acs: seq<AC>, acrs: seq<ACR>, n: string, vols: seq<Vol>, p: NodePlan, v: Vol, w: Vol)
    requires Planned(acs, acrs, n, vols, p) && Distinct(vols) && v in p && w in p && v != w && p[v] == p[w]
    ensures IsLVG(v.req.sc) && IsLVG(w.req.sc)
  {
    hide ConfirmedRequests, Covers, Step, Select;
    var c, views, picks :| PlannedBy(acs, acrs, n, vols, p, c, views, picks);
    assert vols[..|vols|] == vols;
    var i :| 0 <= i < |vols| && vols[i] == v;
    var j :| 0 <= j < |vols| && vols[j] == w;
    PicksAreExclusive(c, views, vols, picks);
    if i < j { assert picks[i] == picks[j]; } else { assert picks[j] == picks[i]; }
  }

  lemma PlanEntryRespects(acs: seq<AC>, acrs: seq<ACR>, n: string, vols: seq<Vol>, p: NodePlan, v: Vol)
    requires Planned(acs, acrs, n, vols, p) && Distinct(vols) && v in p
    requires NamedIn(ConfirmedRequests(acrs), p[v])
    ensures IsLVG(v.req.sc) && IsLVG(FirstClass(ConfirmedRequests(acrs), p[v]))
  {
    var c, views, picks :| PlannedBy(acs, acrs, n, vols, p, c, views, picks);
    assert vols[..|vols|] == vols;
    var i :| 0 <= i < |vols| && vols[i] == v;
    PicksAreExclusive(c, views, vols, picks);
    assert picks[i] in views[0];
  }

  lemma VolumesDistinct(rs: seq<ReservationRequest>)
    ensures Distinct(VolumesOf(rs))
  {
  }

  lemma InPermutation(s: seq<Vol>, t: seq<Vol>)
    requires multiset(s) == multiset(t)
    ensures forall x :: x in s <==> x in t
  {
    forall x ensures x in s <==> x in t {
      assert x in multiset(s) <==> x in multiset(t);
    }
  }

  /** With distinct request names, request i is filled from its own volume. */
  lemma FilledFromOwnVolume(acs: seq<AC>, acrs: seq<ACR>, r: ACR, r': ACR,
                            plan: Plan, visited: seq<string>, vols: seq<Vol>, i: nat)
    requires ConfirmedBy(acs, acrs, r, r', plan, visited, vols) && UniqueRequests(r.requests) && i < |r.requests|
    ensures Distinct(vols) && Vol(i, r.requests[i].cap) in vols
    ensures |r'.requests| == |r.requests| && r'.requests[i].cap == r.requests[i].cap
    ensures r'.requests[i].reservations == ACsAlong(plan, visited, Vol(i, r.requests[i].cap))
  {
    hide Planned, VolSorted, ACsAlong;
    VolumesDistinct(r.requests);
    PermutationKeeps(VolumesOf(r.requests), vols);
    InPermutation(VolumesOf(r.requests), vols);
    assert VolumesOf(r.requests)[i] in VolumesOf(r.requests);
    assert Filled(plan, visited, vols, r.requests[i], r'.requests[i]);
    var v :| v in vols && v.req.name == r.requests[i].cap.name && r'.requests[i].reservations == ACsAlong(plan, visited, v);
    OwnVolume(r.requests, v, i);
  }

  lemma OwnVolume(rs: seq<ReservationRequest>, v: Vol, i: nat)
    requires UniqueRequests(rs) && i < |rs| && v in VolumesOf(rs) && v.req.name == rs[i].cap.name
    ensures v == Vol(i, rs[i].cap)
  {
    var j :| 0 <= j < |rs| && VolumesOf(rs)[j] == v;
    assert j == i;
  }

  lemma {:induction false} AlongIsFromPlan(plan: Plan, nodes: seq<string>, v: Vol, a: string) returns (n: string)
    requires (forall n :: n in nodes ==> n in plan) && a in ACsAlong(plan, nodes, v)
    ensures n in nodes && v in plan[n] && plan[n][v] == a
  {
    var last := nodes[|nodes| - 1];
    if v in plan[last] && plan[last][v] == a {
      n := last;
    } else {
      n := AlongIsFromPlan(plan, nodes[..|nodes| - 1], v, a);
    }
  }

  /** Every AC named by request i of a confirmed ACR comes from one planned node and suits the request. */
  lemma NamedACSuits(acs: seq<AC>, acrs: seq<ACR>, r: ACR, r': ACR,
                     plan: Plan, visited: seq<string>, vols: seq<Vol>, i: nat, a: string) returns (n: string, x: AC)
    requires ConfirmedBy(acs, acrs, r, r', plan, visited, vols) && UniqueRequests(r.requests) && i < |r.requests|
    requires |r'.requests| == |r.requests| && a in r'.requests[i].reservations
    ensures n in plan && Vol(i, r.requests[i].cap) in plan[n] && plan[n][Vol(i, r.requests[i].cap)] == a
    ensures Distinct(vols)
    ensures x in acs && Suits(x, a, n, r.requests[i].cap)
  {
    hide Planned, VolSorted, ACsAlong, Suits;
    FilledFromOwnVolume(acs, acrs, r, r', plan, visited, vols, i);
    var v := Vol(i, r.requests[i].cap);
    n := AlongIsFromPlan(plan, visited, v, a);
    x := PlanEntrySuits(acs, acrs, n, vols, plan[n], v);
  }

  /** Two requests of one confirmed ACR share an AC only if both are LVG requests. */
  lemma ConfirmedInside(acs: seq<AC>, acrs: seq<ACR>, r: ACR, r': ACR,
                        plan: Plan, visited: seq<string>, vols: seq<Vol>, i: nat, j: nat, a: string)
    requires ConfirmedBy(acs, acrs, r, r', plan, visited, vols) && UniqueRequests(r.requests) && UniqueNames(acs)
    requires i < |r.requests| && j < |r.requests| && i != j && |r'.requests| == |r.requests|
    requires a in r'.requests[i].reservations && a in r'.requests[j].reservations
    ensures IsLVG(r.requests[i].cap.sc) && IsLVG(r.requests[j].cap.sc)
  {
    hide Planned, VolSorted;
    var n, x := NamedACSuits(acs, acrs, r, r', plan, visited, vols, i, a);
    var m, y := NamedACSuits(acs, acrs, r, r', plan, visited, vols, j, a);
    assert x == y;
    PlanEntriesExclusive(acs, acrs, n, vols, plan[n], Vol(i, r.requests[i].cap), Vol(j, r.requests[j].cap));
  }

  /** A confirmed ACR names an AC reserved earlier only for an LVG request, on an AC reserved for LVG. */
  lemma ConfirmedAgainstEarlier(acs: seq<AC>, acrs: seq<ACR>, r: ACR, r': ACR,
                                plan: Plan, visited: seq<string>, vols: seq<Vol>, i: nat, a: string)
    requires ConfirmedBy(acs, acrs, r, r', plan, visited, vols) && UniqueRequests(r.requests)
    requires i < |r.requests| && |r'.requests| == |r.requests| && a in r'.requests[i].reservations
    requires NamedIn(ConfirmedRequests(acrs), a)
    ensures IsLVG(r.requests[i].cap.sc) && IsLVG(FirstClass(ConfirmedRequests(acrs), a))
  {
    hide VolSorted, FirstClass;
    var n, x := NamedACSuits(acs, acrs, r, r', plan, visited, vols, i, a);
    PlanEntryRespects(acs, acrs, n, vols, plan[n], Vol(i, r.requests[i].cap));
  }

  // ---- one AC per reserved node ----

  ghost predicate OnNode(acs: seq<AC>, a: string, n: string) {
    exists x :: x in acs && x.name == a && x.nodeId == n
  }

  /** Exactly one of the names is an AC of node n. */
  ghost predicate ExactlyOneOn(acs: seq<AC>, names: seq<string>, n: string) {
    exists k :: 0 <= k < |names| && OnNode(acs, names[k], n)
                && forall j :: 0 <= j < |names| && OnNode(acs, names[j], n) ==> j == k
  }

  lemma {:induction false} AlongVisits(plan: Plan, nodes: seq<string>, v: Vol)
    requires forall n :: n in nodes ==> n in plan && v in plan[n]
    ensures |ACsAlong(plan, nodes, v)| == |nodes|
    ensures forall k :: 0 <= k < |nodes| ==> ACsAlong(plan, nodes, v)[k] == plan[nodes[k]][v]
  {
    if nodes != [] { AlongVisits(plan, nodes[..|nodes| - 1], v); }
  }

  /** Hand-off: after a confirm the reserved nodes were requested, and each request names exactly
      one AC on each of them. */
  lemma ConfirmNamesOneACPerNode(acs: seq<AC>, acrs: seq<ACR>, r: ACR, r': ACR,
                                 plan: Plan, visited: seq<string>, vols: seq<Vol>)
    requires ConfirmedBy(acs, acrs, r, r', plan, visited, vols) && UniqueRequests(r.requests) && UniqueNames(acs)
    ensures forall n :: n in r'.reserved ==> n in r.requested
    ensures |r'.requests| == |r.requests|
    ensures forall i, n :: 0 <= i < |r.requests| && n in r'.reserved ==>
              ExactlyOneOn(acs, r'.requests[i].reservations, n)
  {
    hide Planned, VolSorted;
    forall i, n | 0 <= i < |r.requests| && n in r'.reserved
      ensures ExactlyOneOn(acs, r'.requests[i].reservations, n)
    {
      var v := Vol(i, r.requests[i].cap);
      FilledFromOwnVolume(acs, acrs, r, r', plan, visited, vols, i);
      PlannedKeys(acs, acrs, vols, plan);
      AlongVisits(plan, visited, v);
      var names := r'.requests[i].reservations;
      assert n in visited;
      var k :| 0 <= k < |visited| && visited[k] == n;
      forall j | 0 <= j < |names| ensures OnNode(acs, names[j], n) <==> j == k {
        var x := PlanEntrySuits(acs, acrs, visited[j], vols, plan[visited[j]], v);
        assert x.nodeId == visited[j];
      }
    }
  }

  // ---- the requests of one ACR are told apart by name only ----

  lemma FilledFrom(acs: seq<AC>, acrs: seq<ACR>, r: ACR, r': ACR,
                   plan: Plan, visited: seq<string>, vols: seq<Vol>, i: nat) returns (v: Vol)
    requires ConfirmedBy(acs, acrs, r, r', plan, visited, vols) && i < |r.requests|
    ensures Distinct(vols) && v in vols && v in VolumesOf(r.requests) && v.req.name == r.requests[i].cap.name
    ensures |r'.requests| == |r.requests| && r'.requests[i].cap == r.requests[i].cap
    ensures r'.requests[i].reservations == ACsAlong(plan, visited, v)
  {
    hide Planned, VolSorted, ACsAlong, SharedByName;
    VolumesDistinct(r.requests);
    PermutationKeeps(VolumesOf(r.requests), vols);
    InPermutation(VolumesOf(r.requests), vols);
    assert Filled(plan, visited, vols, r.requests[i], r'.requests[i]);
    v :| v in vols && v.req.name == r.requests[i].cap.name && r'.requests[i].reservations == ACsAlong(plan, visited, v);
  }

  /** Two drive requests of a confirmed ACR share an AC exactly when they carry the same name. */
  lemma DriveRequestsShareIffSameName(acs: seq<AC>, acrs: seq<ACR>, r: ACR, r': ACR,
                                      plan: Plan, visited: seq<string>, vols: seq<Vol>, i: nat, j: nat)
    requires ConfirmedBy(acs, acrs, r, r', plan, visited, vols) && UniqueNames(acs) && AllPlain(VolumesOf(r.requests))
    requires i < |r.requests| && j < |r.requests|
    ensures |r'.requests| == |r.requests|
    ensures (exists a :: a in r'.requests[i].reservations && a in r'.requests[j].reservations)
              <==> r.requests[i].cap.name == r.requests[j].cap.name
  {
    hide ConfirmedBy, ACsAlong, AllPlain, UniqueNames, Distinct;
    var v := FilledFrom(acs, acrs, r, r', plan, visited, vols, i);
    var w := FilledFrom(acs, acrs, r, r', plan, visited, vols, j);
    if r.requests[i].cap.name == r.requests[j].cap.name {
      SomeACNamed(acs, acrs, r, r', plan, visited, vols, v);
      SameNameSameACs(acs, acrs, r, r', plan, visited, vols, i, j);
      assert r'.requests[i].reservations[0] in r'.requests[j].reservations;
    } else if a :| a in r'.requests[i].reservations && a in r'.requests[j].reservations {
      SharedACMeansLVG(acs, acrs, r, r', plan, visited, vols, v, w, a);
      PlainVolume(r.requests, v);
    }
  }

  lemma PlainVolume(rs: seq<ReservationRequest>, v: Vol)
    requires AllPlain(VolumesOf(rs)) && v in VolumesOf(rs)
    ensures !IsLVG(v.req.sc)
  {
  }

  lemma SameNameSameACs(acs: seq<AC>, acrs: seq<ACR>, r: ACR, r': ACR, plan: Plan, visited: seq<string>, vols: seq<Vol>,
                        i: nat, j: nat)
    requires ConfirmedBy(acs, acrs, r, r', plan, visited, vols) && i < |r.requests| && j < |r.requests|
    requires r.requests[i].cap.name == r.requests[j].cap.name
    ensures |r'.requests| == |r.requests| && r'.requests[i].reservations == r'.requests[j].reservations
  {
    hide Planned, VolSorted, VolumesOf, Matched;
    assert Filled(plan, visited, vols, r.requests[i], r'.requests[i]);
    assert Filled(plan, visited, vols, r.requests[j], r'.requests[j]);
  }

  lemma SomeACNamed(acs: seq<AC>, acrs: seq<ACR>, r: ACR, r': ACR, plan: Plan, visited: seq<string>, vols: seq<Vol>, v: Vol)
    requires ConfirmedBy(acs, acrs, r, r', plan, visited, vols) && v in vols
    ensures ACsAlong(plan, visited, v) != []
  {
    hide Planned, VolSorted, AllFilled;
    PlannedKeys(acs, acrs, vols, plan);
    assert Visits(plan, visited) by { VisitsAll(plan, visited, vols, r.requests, r'.requests); }
    AlongVisits(plan, visited, v);
    var n :| n in plan;
    assert n in visited;
  }

  lemma VisitsAll(plan: Plan, visited: seq<string>, vols: seq<Vol>, before: seq<ReservationRequest>, after: seq<ReservationRequest>)
    requires AllFilled(plan, visited, vols, before, after)
    ensures Visits(plan, visited)
  {
  }

  lemma SharedACMeansLVG(acs: seq<AC>, acrs: seq<ACR>, r: ACR, r': ACR, plan: Plan, visited: seq<string>, vols: seq<Vol>,
                         v: Vol, w: Vol, a: string)
    requires ConfirmedBy(acs, acrs, r, r', plan, visited, vols) && UniqueNames(acs) && Distinct(vols)
    requires v in vols && w in vols && v != w && a in ACsAlong(plan, visited, v) && a in ACsAlong(plan, visited, w)
    ensures IsLVG(v.req.sc) && IsLVG(w.req.sc)
  {
    hide Planned, VolSorted, ACsAlong;
    var n := AlongIsFromPlan(plan, visited, v, a);
    var m := AlongIsFromPlan(plan, visited, w, a);
    var x := PlanEntrySuits(acs, acrs, n, vols, plan[n], v);
    var y := PlanEntrySuits(acs, acrs, m, vols, plan[m], w);
    assert x == y;
    PlanEntriesExclusive(acs, acrs, n, vols, plan[n], v, w);
  }
}
