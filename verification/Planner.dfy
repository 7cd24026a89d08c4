// pkg/base/capacityplanner/planner.go: placing all volumes of a reservation on each requested node.

module Planner {
  import opened Types
  import opened Accounting
  import opened Greedy
  import opened AnyClass
  import opened NodeCapacityModel

  type NodePlan = map<Vol, string>

  /** The three outcomes of PlanVolumesPlacing: the retry error, no plan, a plan. */
  datatype PlanResult =
    | Retry
    | NoCapacity
    | Placed(plan: map<string, NodePlan>, capacity: map<string, map<string, AC>>)

  // ---- the volume order ----

  /** The comparator of planner.go:159-168: LVG first, then by size. */
  predicate VolLess(u: Vol, v: Vol) {
    var lu, lv := IsLVG(u.req.sc), IsLVG(v.req.sc);
    (lu && !lv) || (lu == lv && u.req.size < v.req.size)
  }

  ghost predicate VolSorted(s: seq<Vol>) {
    forall i, j :: 0 <= i < j < |s| ==> !VolLess(s[j], s[i])
  }

  /** Element i sinks into the sorted elements before it. */
  method Sink(a: array<Vol>, i: nat)
    requires i < a.Length && VolSorted(a[..i])
    modifies a
    ensures VolSorted(a[..i + 1]) && multiset(a[..]) == multiset(old(a[..]))
  {
    var j := i;
    while j > 0 && VolLess(a[j], a[j - 1])
      invariant 0 <= j <= i
      invariant forall p, q :: 0 <= p < q <= i && q != j ==> !VolLess(a[q], a[p])
      invariant multiset(a[..]) == multiset(old(a[..]))
    {
      a[j], a[j - 1] := a[j - 1], a[j];
      j := j - 1;
    }
  }

  /** sort.Slice on volumes; equal volumes may come out in any order, and nothing below depends on it. */
  method SortVolumes(a: array<Vol>)
    modifies a
    ensures forall i, j :: 0 <= i < j < a.Length ==>
              && (IsLVG(a[j].req.sc) ==> IsLVG(a[i].req.sc))
              && ((IsLVG(a[i].req.sc) <==> IsLVG(a[j].req.sc)) ==> a[i].req.size <= a[j].req.size)
    ensures VolSorted(a[..]) && multiset(a[..]) == multiset(old(a[..]))
  {
    for i := 0 to a.Length
      invariant VolSorted(a[..i]) && multiset(a[..]) == multiset(old(a[..]))
    {
      Sink(a, i);
    }
    assert a[..a.Length] == a[..];
    assert forall i, j :: 0 <= i < j < a.Length ==> !VolLess(a[..][j], a[..][i]);
  }

  lemma PermutationKeeps(s: seq<Vol>, t: seq<Vol>)
    requires multiset(s) == multiset(t) && Distinct(s)
    ensures Distinct(t) && Elements(s) == Elements(t) && |s| == |t|
    ensures forall pool :: Predictable(s, pool) ==> Predictable(t, pool)
  {
    assert |multiset(s)| == |s| && |multiset(t)| == |t|;
    forall x ensures (x in s) == (x in t) {
      assert x in multiset(s) <==> x in multiset(t);
    }
    assert forall x :: x in Elements(s) <==> x in s;
    assert forall x :: x in Elements(t) <==> x in t;
    forall i, j | 0 <= i < j < |t| ensures t[i] != t[j] {
      if t[i] == t[j] {
        OnceIn(s, t[i]);
        TwiceIn(t, i, j);
        assert false;
      }
    }
    forall i | 0 <= i < |t| ensures t[i] in s { assert t[i] in t; }
  }

  lemma {:induction false} OnceIn(s: seq<Vol>, x: Vol)
    requires Distinct(s)
    ensures multiset(s)[x] <= 1
  {
    if s != [] {
      assert s == [s[0]] + s[1..];
      OnceIn(s[1..], x);
      if s[0] == x { assert x !in s[1..]; }
    }
  }

  lemma TwiceIn(t: seq<Vol>, i: nat, j: nat)
    requires i < j < |t| && t[i] == t[j]
    ensures multiset(t)[t[i]] >= 2
  {
    assert t == t[..i] + [t[i]] + t[i + 1..j] + [t[j]] + t[j + 1..];
  }

  lemma DrivesSorted(s: seq<Vol>)
    requires VolSorted(s) && (AllPlain(s) || AllAny(s))
    ensures SizeSorted(s)
  {
    forall i, j | 0 <= i < j < |s| ensures s[i].req.size <= s[j].req.size {
      assert !VolLess(s[j], s[i]);
    }
  }

  // ---- one node ----

  function PlanOf(vols: seq<Vol>, picks: seq<string>, k: nat): (p: NodePlan)
    requires k <= |picks| <= |vols|
    ensures forall v :: v in p <==> v in vols[..k]
    ensures Distinct(vols) ==> forall i :: 0 <= i < k ==> vols[i] in p && p[vols[i]] == picks[i]
  {
    if k == 0 then map[]
    else
      assert vols[..k] == vols[..k - 1] + [vols[k - 1]];
      PlanOf(vols, picks, k - 1)[vols[k - 1] := picks[k - 1]]
  }

  /** planner.go:189-211. */
  method SelectCapacityOnNode(nc: NodeCapacity?, vols: seq<Vol>)
    returns (result: Option<NodePlan>, ghost views: seq<View>, ghost picks: seq<string>)
    modifies if nc == null then {} else nc.Repr()
    ensures nc == null ==> result.None?
    ensures nc != null ==>
              && GreedyRun(nc.Cap(), views, vols, picks)
              && views[0] == old(nc.View()) && views[|picks|] == nc.View()
              && (result.Some? ==> Completed(nc.Cap(), views, vols, picks) && result.value == PlanOf(vols, picks, |vols|))
              && (result.None? ==> Stuck(nc.Cap(), views, vols, picks))
              && fresh(nc.Repr() - old(nc.Repr()))
  {
    hide Select, Booked;
    views, picks := [], [];
    if nc == null { return None, views, picks; }
    var placed: NodePlan := map[];
    views := [nc.View()];
    for i := 0 to |vols|
      invariant |picks| == i && GreedyRun(nc.Cap(), views, vols, picks)
      invariant views[0] == old(nc.View()) && views[i] == nc.View()
      invariant placed == PlanOf(vols, picks, i)
      invariant fresh(nc.Repr() - old(nc.Repr()))
    {
      var ac := nc.SelectACForVolume(vols[i]);
      if ac.None? { return None, views, picks; }
      RunExtends(nc.Cap(), views, vols, picks, ac.value, nc.View());
      PlanOfPrefix(vols, picks, ac.value, i);
      views := views + [nc.View()];
      picks := picks + [ac.value];
      placed := placed[vols[i] := ac.value];
    }
    result := Some(placed);
  }

  lemma {:induction false} PlanOfPrefix(vols: seq<Vol>, picks: seq<string>, a: string, k: nat)
    requires k <= |picks| < |vols|
    ensures PlanOf(vols, picks + [a], k) == PlanOf(vols, picks, k)
  {
    if k > 0 { PlanOfPrefix(vols, picks, a, k - 1); }
  }

  lemma {:induction false} RunKeepsCovers(c: Cap, views: seq<View>, vols: seq<Vol>, picks: seq<string>,
                                          rs: seq<ReservationRequest>, k: nat)
    requires GreedyRun(c, views, vols, picks) && Covers(views[0], rs) && k <= |picks|
    ensures Covers(views[k], rs)
  {
    if k > 0 {
      RunKeepsCovers(c, views, vols, picks, rs, k - 1);
      assert Step(c, views[k - 1], vols[k - 1].req, picks[k - 1], views[k]);
    }
  }

  /** The node has room for all volumes: p comes from a completed selection run that starts from
      a book covering every confirmed reservation. */
  ghost predicate PlannedBy(acs: seq<AC>, acrs: seq<ACR>, node: string, vols: seq<Vol>, p: NodePlan,
                            c: Cap, views: seq<View>, picks: seq<string>) {
    && Describes(c, acs, node) && Completed(c, views, vols, picks)
    && Covers(views[0], ConfirmedRequests(acrs)) && p == PlanOf(vols, picks, |vols|)
  }

  ghost predicate Planned(acs: seq<AC>, acrs: seq<ACR>, node: string, vols: seq<Vol>, p: NodePlan) {
    exists c, views, picks :: PlannedBy(acs, acrs, node, vols, p, c, views, picks)
  }

  /** a is an untainted AC of the node, big enough for the request and in its storage group. */
  ghost predicate MayHold(acs: seq<AC>, node: string, r: CapacityRequest, a: string) {
    exists x :: x in acs && x.name == a && x.nodeId == node && !x.tainted && r.size <= x.size && LabelOf(x.group) == r.group
  }

  lemma PlanNames(acs: seq<AC>, acrs: seq<ACR>, node: string, vols: seq<Vol>, p: NodePlan)
    requires Planned(acs, acrs, node, vols, p) && Distinct(vols)
    ensures forall v :: v in p <==> v in vols
    ensures forall v :: v in p ==> MayHold(acs, node, v.req, p[v])
  {
    hide WellOrdered, ConfirmedRequests, Covers, Step, Select;
    var c, views, picks :| PlannedBy(acs, acrs, node, vols, p, c, views, picks);
    assert vols[..|vols|] == vols;
    forall v | v in p ensures MayHold(acs, node, v.req, p[v]) {
      var i :| 0 <= i < |vols| && vols[i] == v;
      PickFits(c, views, vols, picks, i);
      RoomForRaw(v.req);
      assert c.acs[picks[i]] in acs;
    }
  }

  lemma RoomForRaw(r: CapacityRequest)
    ensures r.size <= Required(r)
  {
  }

  /** The selection run of the node, from a book that holds the confirmed reservations and nothing else, stops
      at a volume for which no AC is admissible. */
  ghost predicate StuckBy(acs: seq<AC>, acrs: seq<ACR>, node: string, vols: seq<Vol>, c: Cap, views: seq<View>, picks: seq<string>) {
    && Describes(c, acs, node) && Stuck(c, views, vols, picks)
    && Covers(views[0], ConfirmedRequests(acrs)) && KnowsOnly(views[0], ConfirmedRequests(acrs))
  }

  /** Why a node is left out of a plan. */
  ghost predicate LeftOut(acs: seq<AC>, acrs: seq<ACR>, node: string, vols: seq<Vol>) {
    acs == [] || exists c, views, picks :: StuckBy(acs, acrs, node, vols, c, views, picks)
  }

  predicate Reserves(acr: ACR, i: int, a: string) {
    acr.status.Reserved? && 0 <= i < |acr.requests| && a in acr.requests[i].reservations
  }

  /** Some request of a RESERVED ACR names a. */
  ghost predicate IsReserved(acrs: seq<ACR>, a: string) {
    exists k, i :: 0 <= k < |acrs| && Reserves(acrs[k], i, a)
  }

  lemma {:induction false} ConfirmedAreReserved(acrs: seq<ACR>, a: string)
    ensures NamedIn(ConfirmedRequests(acrs), a) <==> IsReserved(acrs, a)
  {
    if acrs != [] {
      var init, last := acrs[..|acrs| - 1], acrs[|acrs| - 1];
      ConfirmedAreReserved(init, a);
      ReservedNext(init, last, a);
      assert acrs == init + [last];
      var confirmed := if last.status.Reserved? then last.requests else [];
      assert ConfirmedRequests(acrs) == ConfirmedRequests(init) + confirmed;
      NamedInBoth(ConfirmedRequests(init), confirmed, a);
      hide ConfirmedRequests, IsReserved;
    }
  }

  lemma ReservedNext(acrs: seq<ACR>, last: ACR, a: string)
    ensures IsReserved(acrs + [last], a) <==> IsReserved(acrs, a) || (last.status.Reserved? && NamedIn(last.requests, a))
  {
    var all := acrs + [last];
    if k, i :| 0 <= k < |all| && Reserves(all[k], i, a) {
      if k < |acrs| { assert Reserves(acrs[k], i, a); }
    }
    if k, i :| 0 <= k < |acrs| && Reserves(acrs[k], i, a) { assert Reserves(all[k], i, a); }
    if last.status.Reserved? && NamedIn(last.requests, a) {
      var i :| 0 <= i < |last.requests| && a in last.requests[i].reservations;
      assert Reserves(all[|acrs|], i, a);
    }
  }

  lemma NamedInBoth(rs: seq<ReservationRequest>, ss: seq<ReservationRequest>, a: string)
    ensures NamedIn(rs + ss, a) <==> NamedIn(rs, a) || NamedIn(ss, a)
  {
    if i :| 0 <= i < |rs| && a in rs[i].reservations { assert (rs + ss)[i] == rs[i]; }
    if i :| 0 <= i < |ss| && a in ss[i].reservations { assert (rs + ss)[|rs| + i] == ss[i]; }
  }

  /** The untainted ACs of the node that no confirmed reservation names. */
  ghost function FreeACs(acs: seq<AC>, acrs: seq<ACR>, node: string): set<AC> {
    set i | 0 <= i < |acs| && acs[i].nodeId == node && !acs[i].tainted && !IsReserved(acrs, acs[i].name) :: acs[i]
  }

  lemma PoolIsFreeACs(c: Cap, v: View, acs: seq<AC>, acrs: seq<ACR>, node: string)
    requires Describes(c, acs, node)
    requires Covers(v, ConfirmedRequests(acrs)) && KnowsOnly(v, ConfirmedRequests(acrs))
    ensures Pool(c, v) == FreeACs(acs, acrs, node)
  {
    hide WellOrdered, ConfirmedRequests, IsReserved, NamedIn;
    forall a { ConfirmedAreReserved(acrs, a); }
    forall x ensures x in Pool(c, v) <==> x in FreeACs(acs, acrs, node) {
      if x in Pool(c, v) {
        var n :| n in c.acs && n !in v && c.acs[n] == x;
        var i :| 0 <= i < |acs| && acs[i] == x;
      }
      if x in FreeACs(acs, acrs, node) { assert x in acs; }
    }
  }

  /** A run from an untouched book completes exactly when the drives that are free allow a placement. */
  lemma NodeIsComplete(c: Cap, views: seq<View>, vols: seq<Vol>, picks: seq<string>,
                       acs: seq<AC>, acrs: seq<ACR>, node: string)
    requires Describes(c, acs, node) && GreedyRun(c, views, vols, picks)
    requires Covers(views[0], ConfirmedRequests(acrs)) && KnowsOnly(views[0], ConfirmedRequests(acrs))
    requires VolSorted(vols) && Predictable(vols, FreeACs(acs, acrs, node)) && Distinct(vols)
    ensures Completed(c, views, vols, picks) ==> Feasible(FreeACs(acs, acrs, node), Elements(vols))
    ensures Stuck(c, views, vols, picks) ==> !Feasible(FreeACs(acs, acrs, node), Elements(vols))
  {
    DrivesSorted(vols);
    PoolIsFreeACs(c, views[0], acs, acrs, node);
    GreedyIsComplete(c, views, vols, picks);
  }

  /** For requests of class ANY that holds for every list of requests if and only if the free ACs of each storage
      group ascend in size along the order of the classes. */
  lemma AnyNodeIsCompleteExactly(c: Cap, v: View, acs: seq<AC>, acrs: seq<ACR>, node: string)
    requires Describes(c, acs, node)
    requires Covers(v, ConfirmedRequests(acrs)) && KnowsOnly(v, ConfirmedRequests(acrs))
    ensures AnyIsComplete(c, v) <==> ClassesAscend(FreeACs(acs, acrs, node))
  {
    PoolIsFreeACs(c, v, acs, acrs, node);
    AnyIsCompleteExactly(c, v);
    hide AnyIsComplete, ClassesAscend;
  }

  // ---- sequential LVG mode ----

  /** Some confirmed reservation uses an LVG class one of the volumes asks for. */
  ghost predicate LVGCapacityReserved(vols: seq<Vol>, acrs: seq<ACR>) {
    exists i, r, v ::
      && 0 <= i < |acrs| && acrs[i].status.Reserved? && r in acrs[i].requests
      && v in vols && IsLVG(v.req.sc) && v.req.sc == r.cap.sc
  }

  /** planner.go:215-250. */
  method IsLVGCapacityReserved(vols: seq<Vol>, acrs: seq<ACR>) returns (reserved: bool)
    ensures reserved <==> LVGCapacityReserved(vols, acrs)
  {
    var lvgVolumes: seq<Vol> := [];
    for i := 0 to |vols|
      invariant forall v :: v in lvgVolumes <==> v in vols[..i] && IsLVG(v.req.sc)
    {
      assert vols[..i + 1] == vols[..i] + [vols[i]];
      if IsLVG(vols[i].req.sc) { lvgVolumes := lvgVolumes + [vols[i]]; }
    }
    assert vols[..|vols|] == vols;
    for i := 0 to |acrs|
      invariant forall k, r, v :: 0 <= k < i && acrs[k].status.Reserved? && r in acrs[k].requests && v in lvgVolumes
                  ==> v.req.sc != r.cap.sc
    {
      if !acrs[i].status.Reserved? { continue; }
      for j := 0 to |acrs[i].requests|
        invariant forall k, v :: 0 <= k < j && v in lvgVolumes ==> v.req.sc != acrs[i].requests[k].cap.sc
      {
        for l := 0 to |lvgVolumes|
          invariant forall k :: 0 <= k < l ==> lvgVolumes[k].req.sc != acrs[i].requests[j].cap.sc
        {
          if lvgVolumes[l].req.sc == acrs[i].requests[j].cap.sc {
            assert acrs[i].requests[j] in acrs[i].requests && lvgVolumes[l] in lvgVolumes;
            return true;
          }
        }
      }
    }
    return false;
  }

  // ---- the whole plan ----

  ghost predicate Separate(m: map<string, NodeCapacity?>)
    reads set n | n in m && m[n] != null :: m[n]
  {
    forall x, y :: x in m && y in m && x != y && m[x] != null && m[y] != null ==> m[x].Repr() !! m[y].Repr()
  }

  /** The state of one node's book: never under-counts, and is untouched until its turn. */
  ghost predicate NodeReady(nc: NodeCapacity?, acs: seq<AC>, acrs: seq<ACR>, node: string, untouched: bool)
    reads if nc == null then {} else nc.Repr()
  {
    && (nc == null <==> acs == [])
    && (nc != null ==> Describes(nc.Cap(), acs, node) && Covers(nc.View(), ConfirmedRequests(acrs))
                       && (untouched ==> KnowsOnly(nc.View(), ConfirmedRequests(acrs))))
  }

  method ReadNode(node: string, acs: seq<AC>, acrs: seq<ACR>) returns (nc: NodeCapacity?)
    requires UniqueNames(acs)
    ensures nc == null <==> acs == []
    ensures nc != null ==> fresh(nc.Repr())
    ensures NodeReady(nc, acs, acrs, node, true)
  {
    nc := NewNodeCapacity(node, acs, acrs);
  }

  method PlaceOnNode(nc: NodeCapacity?, node: string, vols: seq<Vol>, acs: seq<AC>, acrs: seq<ACR>, ghost untouched: bool)
    returns (volToAC: Option<NodePlan>)
    requires NodeReady(nc, acs, acrs, node, untouched) && VolSorted(vols) && Distinct(vols)
    modifies if nc == null then {} else nc.Repr()
    ensures NodeReady(nc, acs, acrs, node, false)
    ensures nc == null ==> volToAC.None?
    ensures nc != null ==> fresh(nc.Repr() - old(nc.Repr()))
    ensures volToAC.Some? ==> Planned(acs, acrs, node, vols, volToAC.value)
    ensures untouched && volToAC.None? ==> LeftOut(acs, acrs, node, vols)
    ensures untouched && Predictable(vols, FreeACs(acs, acrs, node)) ==>
              (volToAC.Some? <==> acs != [] && Feasible(FreeACs(acs, acrs, node), Elements(vols)))
  {
    hide Covers, KnowsOnly, ConfirmedRequests, VolSorted, Predictable, Feasible, FreeACs, WellOrdered;
    ghost var views, picks;
    volToAC, views, picks := SelectCapacityOnNode(nc, vols);
    if nc != null {
      RunKeepsCovers(nc.Cap(), views, vols, picks, ConfirmedRequests(acrs), |picks|);
      if volToAC.Some? {
        assert PlannedBy(acs, acrs, node, vols, volToAC.value, nc.Cap(), views, picks);
      } else if untouched {
        assert StuckBy(acs, acrs, node, vols, nc.Cap(), views, picks);
      }
      if untouched && Predictable(vols, FreeACs(acs, acrs, node)) {
        NodeIsComplete(nc.Cap(), views, vols, picks, acs, acrs, node);
      }
    }
  }

  /** The untainted ACs of the node and no others, each under its own name. */
  ghost predicate HoldsNode(m: map<string, AC>, acs: seq<AC>, node: string) {
    forall name, x :: name in m && m[name] == x <==> x in acs && x.nodeId == node && !x.tainted && x.name == name
  }

  class CapacityManager {
    const sequentialLVGReservation: bool
    var nodesCapacity: map<string, NodeCapacity?>

    constructor (sequentialLVGReservation: bool)
      ensures this.sequentialLVGReservation == sequentialLVGReservation
    {
      this.sequentialLVGReservation := sequentialLVGReservation;
      this.nodesCapacity := map[];
    }

    /** planner.go:151-154. */
    method ReadNodes(nodes: seq<string>, acs: seq<AC>, acrs: seq<ACR>)
      requires UniqueNames(acs)
      modifies this
      ensures forall n :: n in nodesCapacity <==> n in nodes
      ensures forall n :: n in nodesCapacity && nodesCapacity[n] != null ==> fresh(nodesCapacity[n].Repr())
      ensures Separate(nodesCapacity)
      ensures forall n :: n in nodesCapacity ==> NodeReady(nodesCapacity[n], acs, acrs, n, true)
      ensures forall n :: n in nodesCapacity ==> (nodesCapacity[n] == null <==> acs == [])
    {
      hide NodeReady, UniqueNames;
      var m: map<string, NodeCapacity?> := map[];
      for i := 0 to |nodes|
        invariant forall n :: n in m <==> n in nodes[..i]
        invariant forall n :: n in m && m[n] != null ==> fresh(m[n].Repr())
        invariant Separate(m)
        invariant forall n :: n in m ==> NodeReady(m[n], acs, acrs, n, true)
        invariant forall n :: n in m ==> (m[n] == null <==> acs == [])
      {
        assert nodes[..i + 1] == nodes[..i] + [nodes[i]];
        label before:
        var nc := ReadNode(nodes[i], acs, acrs);
        assert forall n :: n in m && m[n] != null ==> unchanged@before(m[n].Repr());
        m := m[nodes[i] := nc];
      }
      assert nodes[..|nodes|] == nodes;
      nodesCapacity := m;
    }

    /** planner.go:252-258. Reached only with a plan, hence with capacity read for every node. */
    method ConvertCapacityToMap(ghost acs: seq<AC>, ghost acrs: seq<ACR>) returns (result: map<string, map<string, AC>>)
      requires acs != [] && forall n :: n in nodesCapacity ==> NodeReady(nodesCapacity[n], acs, acrs, n, false)
      ensures forall n :: n in result <==> n in nodesCapacity
      ensures forall n :: n in result ==> HoldsNode(result[n], acs, n)
    {
      result := map n | n in nodesCapacity :: nodesCapacity[n].acs;
    }

    /** planner.go:130-187. */
    method PlanVolumesPlacing(volumes: array<Vol>, nodes: seq<string>, acs: seq<AC>, acrs: seq<ACR>)
      returns (r: PlanResult)
      requires UniqueNames(acs) && Distinct(volumes[..])
      modifies this, volumes
      ensures multiset(volumes[..]) == multiset(old(volumes[..]))
      ensures r.Retry? <==> sequentialLVGReservation && LVGCapacityReserved(old(volumes[..]), acrs)
      ensures !r.Retry? ==> VolSorted(volumes[..])
      ensures r.Placed? ==>
                && r.plan != map[]
                && (forall n :: n in r.plan ==> n in nodes && Planned(acs, acrs, n, volumes[..], r.plan[n]))
                && (forall n, v :: n in r.plan ==> (v in r.plan[n] <==> v in volumes[..]))
                && (forall n, v :: n in r.plan && v in r.plan[n] ==> MayHold(acs, n, v.req, r.plan[n][v]))
                && (forall n :: n in r.capacity <==> n in nodes)
                && forall n :: n in nodes ==> HoldsNode(r.capacity[n], acs, n)
      ensures !r.Retry? && Distinct(nodes) ==>
                forall n :: n in nodes && !(r.Placed? && n in r.plan) ==> LeftOut(acs, acrs, n, volumes[..])
      ensures !r.Retry? && Distinct(nodes) ==>
                forall n :: n in nodes && Predictable(old(volumes[..]), FreeACs(acs, acrs, n)) ==>
                  ((r.Placed? && n in r.plan) <==> acs != [] && Feasible(FreeACs(acs, acrs, n), Elements(old(volumes[..]))))
    {
      hide NodeReady, VolSorted, Predictable, Feasible, FreeACs, Planned, LeftOut, Separate, LVGCapacityReserved, MayHold;
      if sequentialLVGReservation {
        var reserved := IsLVGCapacityReserved(volumes[..], acrs);
        if reserved { return Retry; }
      }
      ReadNodes(nodes, acs, acrs);
      SortVolumes(volumes);
      PermutationKeeps(old(volumes[..]), volumes[..]);
      var sorted := volumes[..];
      assert volumes !in Footprint(nodesCapacity) && this !in Footprint(nodesCapacity);
      var plan := SelectOnNodes(nodes, sorted, acs, acrs);
      assert volumes[..] == sorted;
      if plan == map[] { return NoCapacity; }
      forall n | n in plan { PlanNames(acs, acrs, n, sorted, plan[n]); }
      var capacity := ConvertCapacityToMap(acs, acrs);
      return Placed(plan, capacity);
    }

    /** planner.go:171-178. */
    method SelectOnNodes(nodes: seq<string>, vols: seq<Vol>, acs: seq<AC>, acrs: seq<ACR>)
      returns (plan: map<string, NodePlan>)
      requires forall n :: n in nodesCapacity <==> n in nodes
      requires Separate(nodesCapacity)
      requires forall n :: n in nodesCapacity ==> NodeReady(nodesCapacity[n], acs, acrs, n, true)
      requires forall n :: n in nodesCapacity ==> (nodesCapacity[n] == null <==> acs == [])
      requires VolSorted(vols) && Distinct(vols) && this !in Footprint(nodesCapacity)
      modifies Footprint(nodesCapacity)
      ensures forall n :: n in nodesCapacity ==> NodeReady(nodesCapacity[n], acs, acrs, n, false)
      ensures acs == [] ==> plan == map[]
      ensures forall n :: n in plan ==> n in nodes && Planned(acs, acrs, n, vols, plan[n])
      ensures Distinct(nodes) ==> forall n :: n in nodes && n !in plan ==> LeftOut(acs, acrs, n, vols)
      ensures Distinct(nodes) ==>
                forall n :: n in nodes && Predictable(vols, FreeACs(acs, acrs, n)) ==>
                  (n in plan <==> acs != [] && Feasible(FreeACs(acs, acrs, n), Elements(vols)))
    {
      hide NodeReady, VolSorted, Predictable, Feasible, FreeACs, Planned, LeftOut, Separate, Footprint;
      var m := nodesCapacity;
      ghost var footprint := Footprint(m);
      plan := map[];
      for i := 0 to |nodes|
        invariant Separate(m)
        invariant forall o :: o in Footprint(m) ==> o in footprint || fresh(o)
        invariant forall n :: n in m ==> NodeReady(m[n], acs, acrs, n, n !in nodes[..i])
        invariant acs == [] ==> plan == map[]
        invariant forall n :: n in plan ==> n in nodes[..i] && Planned(acs, acrs, n, vols, plan[n])
        invariant Distinct(nodes) ==> forall n :: n in nodes[..i] && n !in plan ==> LeftOut(acs, acrs, n, vols)
        invariant Distinct(nodes) ==>
                    forall n :: n in nodes[..i] && Predictable(vols, FreeACs(acs, acrs, n)) ==>
                      (n in plan <==> acs != [] && Feasible(FreeACs(acs, acrs, n), Elements(vols)))
      {
        assert nodes[..i + 1] == nodes[..i] + [nodes[i]];
        var volToAC := PlaceAt(m, nodes[i], vols, acs, acrs, nodes[..i]);
        if volToAC.None? { continue; }
        plan := plan[nodes[i] := volToAC.value];
      }
      assert nodes[..|nodes|] == nodes;
      forall n | n in m ensures NodeReady(m[n], acs, acrs, n, false) { TouchedIsReady(m[n], acs, acrs, n, n !in nodes); }
    }
  }

  lemma TouchedIsReady(nc: NodeCapacity?, acs: seq<AC>, acrs: seq<ACR>, node: string, untouched: bool)
    requires NodeReady(nc, acs, acrs, node, untouched)
    ensures NodeReady(nc, acs, acrs, node, false)
  {
  }

  ghost function Footprint(m: map<string, NodeCapacity?>): set<object>
    reads set n | n in m && m[n] != null :: m[n]
  {
    set n, o | n in m && m[n] != null && o in m[n].Repr() :: o
  }

  /** Placing on one node leaves the books of the other nodes alone. */
  method PlaceAt(m: map<string, NodeCapacity?>, node: string, vols: seq<Vol>, acs: seq<AC>, acrs: seq<ACR>,
                 ghost visited: seq<string>)
    returns (volToAC: Option<NodePlan>)
    requires node in m && Separate(m) && VolSorted(vols) && Distinct(vols)
    requires forall n :: n in m ==> NodeReady(m[n], acs, acrs, n, n !in visited)
    requires forall n :: n in m ==> (m[n] == null <==> acs == [])
    modifies Footprint(m)
    ensures Separate(m) && forall o :: o in Footprint(m) ==> o in old(Footprint(m)) || fresh(o)
    ensures forall n :: n in m ==> NodeReady(m[n], acs, acrs, n, n !in visited + [node])
    ensures acs == [] ==> volToAC.None?
    ensures volToAC.Some? ==> Planned(acs, acrs, node, vols, volToAC.value)
    ensures node !in visited && volToAC.None? ==> LeftOut(acs, acrs, node, vols)
    ensures node !in visited && Predictable(vols, FreeACs(acs, acrs, node)) ==>
              (volToAC.Some? <==> acs != [] && Feasible(FreeACs(acs, acrs, node), Elements(vols)))
  {
    hide NodeReady, VolSorted, Predictable, Feasible, FreeACs, Planned, LeftOut;
    var nc := m[node];
    label before:
    assert forall o :: nc != null && o in nc.Repr() ==> o in Footprint(m);
    volToAC := PlaceOnNode(nc, node, vols, acs, acrs, node !in visited);
    forall n | n in m ensures NodeReady(m[n], acs, acrs, n, n !in visited + [node]) {
      if n != node {
        assert m[n] != null && nc != null ==> m[n].Repr() !! old@before(nc.Repr());
        assert m[n] != null ==> unchanged@before(m[n].Repr());
        assert n !in visited + [node] <==> n !in visited;
      }
    }
  }
}
