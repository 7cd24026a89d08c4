// pkg/scheduler/extender/extender.go: the scheduler's side of a reservation, and node scoring.

module SchedulerExtender {
  import opened Types
  import opened Stores

  /** A Kubernetes node; `id` is what GetNodeID answers, None when it fails. */
  datatype KubeNode = KubeNode(name: string, id: Option<string>)

  predicate HasId(n: KubeNode) {
    n.id.Some? && n.id.value != ""
  }

  /** The IDs of the nodes that have one, in order. */
  function NodeIds(nodes: seq<KubeNode>): (ids: seq<string>)
    ensures forall i :: i in ids <==> exists n :: n in nodes && HasId(n) && n.id.value == i
  {
    if nodes == [] then []
    else
      var last := nodes[|nodes| - 1];
      assert nodes == nodes[..|nodes| - 1] + [last];
      NodeIds(nodes[..|nodes| - 1]) + (if HasId(last) then [last.id.value] else [])
  }

  function MatchedNodes(nodes: seq<KubeNode>, reserved: seq<string>): (m: seq<KubeNode>)
    ensures forall n :: n in m <==> n in nodes && n.id.Some? && n.id.value != "" && n.id.value in reserved
  {
    if nodes == [] then []
    else
      var last := nodes[|nodes| - 1];
      assert nodes == nodes[..|nodes| - 1] + [last];
      MatchedNodes(nodes[..|nodes| - 1], reserved) + (if HasId(last) && last.id.value in reserved then [last] else [])
  }

  function FailedNodes(nodes: seq<KubeNode>, reserved: seq<string>): (r: set<string>)
    ensures forall x :: x in r <==> exists n :: n in nodes && n.id.Some? && n.id.value != "" && n.id.value !in reserved && n.name == x
  {
    set n | n in nodes && HasId(n) && n.id.value !in reserved :: n.name
  }

  lemma SplitNone(reserved: seq<string>)
    ensures MatchedNodes([], reserved) == [] && FailedNodes([], reserved) == {}
  {
  }

  lemma SplitNext(nodes: seq<KubeNode>, reserved: seq<string>, i: nat)
    requires i < |nodes|
    ensures var n := nodes[i];
            && MatchedNodes(nodes[..i + 1], reserved) ==
                 MatchedNodes(nodes[..i], reserved) + (if HasId(n) && n.id.value in reserved then [n] else [])
            && FailedNodes(nodes[..i + 1], reserved) ==
                 FailedNodes(nodes[..i], reserved) + (if HasId(n) && n.id.value !in reserved then {n.name} else {})
  {
    assert nodes[..i + 1][..i] == nodes[..i];
    assert nodes[..i + 1] == nodes[..i] + [nodes[i]];
  }

  function Unreserved(caps: seq<CapacityRequest>): (rs: seq<ReservationRequest>)
    ensures |rs| == |caps| && forall i :: 0 <= i < |rs| ==> rs[i] == ReservationRequest(caps[i], [])
  {
    seq(|caps|, i requires 0 <= i < |caps| => ReservationRequest(caps[i], []))
  }

  function Cleared(rs: seq<ReservationRequest>): (r: seq<ReservationRequest>)
    ensures |r| == |rs| && forall i :: 0 <= i < |r| ==> r[i] == rs[i].(reservations := [])
  {
    seq(|rs|, i requires 0 <= i < |rs| => rs[i].(reservations := []))
  }

  /** The reservation asked for again: no AC is promised any more, the list of reserved nodes stays as it was. */
  function Resent(acr: ACR, ids: seq<string>): ACR {
    acr.(status := Requested, requested := ids, requests := Cleared(acr.requests))
  }

  datatype FilterResult =
    | AllNodes                                         // the pod asks for no storage
    | Waiting                                          // no node for now, the scheduler will ask again
    | Nodes(matched: seq<KubeNode>, failed: set<string>)

  class Extender {
    const client: Cluster

    constructor (client: Cluster)
      ensures this.client == client
    {
      this.client := client;
    }

    /** extender.go:489-505. */
    method PrepareListOfRequestedNodes(nodes: seq<KubeNode>) returns (ids: seq<string>)
      ensures ids == NodeIds(nodes)
      ensures forall i :: i in ids <==> i != "" && exists n :: n in nodes && n.id == Some(i)
    {
      ids := [];
      for i := 0 to |nodes|
        invariant ids == NodeIds(nodes[..i])
      {
        assert nodes[..i + 1][..i] == nodes[..i];
        if nodes[i].id.None? { continue; }
        if nodes[i].id.value == "" { continue; }
        ids := ids + [nodes[i].id.value];
      }
      assert nodes[..|nodes|] == nodes;
    }

    /** extender.go:451-487. */
    method CreateReservation(namespace: string, name: string, nodes: seq<KubeNode>, capacities: seq<CapacityRequest>)
      requires name !in client.acrs
      modifies client`acrs
      ensures client.acrs == if NodeIds(nodes) == [] then old(client.acrs)
                             else old(client.acrs)[name := ACR(name, namespace, Requested, Unreserved(capacities), NodeIds(nodes), [])]
    {
      var requests: seq<ReservationRequest> := [];
      for i := 0 to |capacities|
        invariant |requests| == i && forall k :: 0 <= k < i ==> requests[k] == ReservationRequest(capacities[k], [])
      {
        requests := requests + [ReservationRequest(capacities[i], [])];
      }
      assert requests == Unreserved(capacities);
      var requested := PrepareListOfRequestedNodes(nodes);
      if |requested| == 0 { return; }
      client.acrs := client.acrs[name := ACR(name, namespace, Requested, requests, requested, [])];
    }

    /** extender.go:557-575. */
    method ResendReservationRequest(reservation: ACR, nodes: seq<KubeNode>)
      modifies client`acrs
      ensures client.acrs == if NodeIds(nodes) == [] then old(client.acrs)
                             else old(client.acrs)[reservation.name := Resent(reservation, NodeIds(nodes))]
      ensures NodeIds(nodes) != [] ==>
                var acr := client.acrs[reservation.name];
                && acr == reservation.(status := Requested, requested := acr.requested, requests := acr.requests)
                && |acr.requests| == |reservation.requests|
                && forall k :: 0 <= k < |acr.requests| ==> acr.requests[k] == reservation.requests[k].(reservations := [])
    {
      var requested := PrepareListOfRequestedNodes(nodes);
      if |requested| == 0 { return; }
      var requests := reservation.requests;
      for i := 0 to |requests|
        invariant |requests| == |reservation.requests|
        invariant forall k :: 0 <= k < |requests| ==>
                    requests[k] == if k < i then reservation.requests[k].(reservations := []) else reservation.requests[k]
      {
        requests := requests[i := requests[i].(reservations := [])];
      }
      assert requests == Cleared(reservation.requests);
      client.acrs := client.acrs[reservation.name := reservation.(status := Requested, requested := requested, requests := requests)];
    }

    /** The loop of extender.go:517-544. */
    method SplitNodes(reserved: seq<string>, nodes: seq<KubeNode>) returns (matched: seq<KubeNode>, failed: set<string>)
      ensures matched == MatchedNodes(nodes, reserved) && failed == FailedNodes(nodes, reserved)
    {
      matched, failed := [], {};
      hide MatchedNodes, FailedNodes;
      SplitNone(reserved);
      for i := 0 to |nodes|
        invariant matched == MatchedNodes(nodes[..i], reserved)
        invariant failed == FailedNodes(nodes[..i], reserved)
      {
        SplitNext(nodes, reserved, i);
        if nodes[i].id.None? || nodes[i].id.value == "" { continue; }
        var isFound := false;
        for k := 0 to |reserved|
          invariant !isFound && nodes[i].id.value !in reserved[..k]
        {
          if reserved[k] == nodes[i].id.value {
            isFound := true;
            break;
          }
        }
        if isFound { matched := matched + [nodes[i]]; }
        else { failed := failed + {nodes[i].name}; }
      }
      assert nodes[..|nodes|] == nodes;
    }

    /** extender.go:507-555. Of a confirmed reservation, the nodes with an ID are split into those
        reserved and those that failed; if none is reserved the request is sent again. */
    method HandleReservation(reservation: ACR, nodes: seq<KubeNode>) returns (r: FilterResult)
      modifies client`acrs
      ensures r.Nodes? <==> reservation.status.Reserved? && MatchedNodes(nodes, reservation.reserved) != []
      ensures r.Nodes? ==>
                && client.acrs == old(client.acrs)
                && r.matched == MatchedNodes(nodes, reservation.reserved)
                && r.failed == FailedNodes(nodes, reservation.reserved)
                && forall n :: n in r.matched <==> n in nodes && n.id.Some? && n.id.value != "" && n.id.value in reservation.reserved
      ensures !r.Nodes? ==> r.Waiting?
      ensures reservation.status.Requested? ==> client.acrs == old(client.acrs)
      ensures !r.Nodes? && !reservation.status.Requested? ==>
                client.acrs == if NodeIds(nodes) == [] then old(client.acrs)
                               else old(client.acrs)[reservation.name := Resent(reservation, NodeIds(nodes))]
    {
      match reservation.status {
        case Requested => return Waiting;
        case Reserved =>
          var matched, failed := SplitNodes(reservation.reserved, nodes);
          if |matched| == 0 {
            ResendReservationRequest(reservation, nodes);
            return Waiting;
          }
          return Nodes(matched, failed);
        case Rejected =>
          ResendReservationRequest(reservation, nodes);
          return Waiting;
      }
    }

    /** extender.go:391-440. */
    method Filter(namespace: string, reservationName: string, nodes: seq<KubeNode>, capacities: seq<CapacityRequest>)
      returns (r: FilterResult)
      requires forall n :: n in client.acrs ==> client.acrs[n].name == n
      modifies client`acrs
      ensures capacities == [] <==> r.AllNodes?
      ensures r.AllNodes? || r.Nodes? ==> client.acrs == old(client.acrs)
      ensures r.Nodes? ==>
                && reservationName in client.acrs && client.acrs[reservationName].status.Reserved?
                && r.matched == MatchedNodes(nodes, client.acrs[reservationName].reserved) && r.matched != []
                && forall x :: x in r.failed <==>
                     exists n :: n in nodes && n.id.Some? && n.id.value != "" && n.id.value !in client.acrs[reservationName].reserved && n.name == x
      ensures NodeIds(nodes) == [] ==> client.acrs == old(client.acrs)
      ensures capacities != [] && NodeIds(nodes) != [] && reservationName !in old(client.acrs) ==>
                client.acrs == old(client.acrs)[reservationName :=
                  ACR(reservationName, namespace, Requested, Unreserved(capacities), NodeIds(nodes), [])]
      ensures capacities != [] && NodeIds(nodes) != [] && reservationName in old(client.acrs) && r.Waiting? ==>
                var acr := old(client.acrs)[reservationName];
                client.acrs == if acr.status.Requested? then old(client.acrs)
                               else old(client.acrs)[reservationName := Resent(acr, NodeIds(nodes))]
    {
      if |capacities| == 0 { return AllNodes; }
      if reservationName !in client.acrs {
        CreateReservation(namespace, reservationName, nodes, capacities);
        return Waiting;
      }
      r := HandleReservation(client.acrs[reservationName], nodes);
    }
  }

  // ---- scoring ----

  function VolumesOn(vols: seq<Volume>, node: string): seq<Volume> {
    if vols == [] then []
    else
      var last := vols[|vols| - 1];
      VolumesOn(vols[..|vols| - 1], node) + (if last.nodeId == node then [last] else [])
  }

  /** extender.go:622-633. */
  method NodeVolumeCountMapping(vols: seq<Volume>) returns (m: map<string, seq<Volume>>)
    ensures forall n :: n in m <==> VolumesOn(vols, n) != []
    ensures forall n :: n in m ==> m[n] == VolumesOn(vols, n)
  {
    m := map[];
    for i := 0 to |vols|
      invariant forall n :: n in m <==> VolumesOn(vols[..i], n) != []
      invariant forall n :: n in m ==> m[n] == VolumesOn(vols[..i], n)
    {
      assert vols[..i + 1][..i] == vols[..i];
      var nID := vols[i].nodeId;
      if nID in m {
        m := m[nID := m[nID] + [vols[i]]];
        continue;
      }
      m := m[nID := [vols[i]]];
    }
    assert vols[..|vols|] == vols;
  }

  ghost predicate IsMaxCount(m: map<string, seq<Volume>>, most: nat) {
    && (forall n :: n in m ==> |m[n]| <= most)
    && (most == 0 || exists n :: n in m && |m[n]| == most)
  }

  /** extender.go:636-649. */
  method NodePrioritize(m: map<string, seq<Volume>>) returns (nrank: map<string, int>, maxCount: nat)
    ensures IsMaxCount(m, maxCount)
    ensures nrank.Keys == m.Keys && forall n :: n in m ==> nrank[n] == maxCount - |m[n]|
  {
    maxCount := 0;
    var todo := m.Keys;
    while todo != {}
      invariant todo <= m.Keys
      invariant forall n :: n in m && n !in todo ==> |m[n]| <= maxCount
      invariant maxCount == 0 || exists n :: n in m && |m[n]| == maxCount
      decreases todo
    {
      var n :| n in todo;
      if maxCount < |m[n]| { maxCount := |m[n]|; }
      todo := todo - {n};
    }
    nrank := map[];
    todo := m.Keys;
    while todo != {}
      invariant todo <= m.Keys && nrank.Keys == m.Keys - todo
      invariant forall n :: n in nrank ==> nrank[n] == maxCount - |m[n]|
      decreases todo
    {
      var n :| n in todo;
      nrank := nrank[n := maxCount - |m[n]|];
      todo := todo - {n};
    }
  }

  function Scored(nodes: seq<KubeNode>, vols: seq<Volume>, most: nat): seq<(string, int)> {
    if nodes == [] then []
    else
      var last := nodes[|nodes| - 1];
      Scored(nodes[..|nodes| - 1], vols, most)
      + (if HasId(last) then [(last.name, most - |VolumesOn(vols, last.id.value)|)] else [])
  }

  /** The largest number of volumes on any node. */
  ghost predicate IsMost(vols: seq<Volume>, most: nat) {
    (forall n :: |VolumesOn(vols, n)| <= most) && (most == 0 || exists n :: |VolumesOn(vols, n)| == most)
  }

  lemma MostIsMax(vols: seq<Volume>, m: map<string, seq<Volume>>, most: nat)
    requires IsMaxCount(m, most) && (forall n :: n in m <==> VolumesOn(vols, n) != []) && forall n :: n in m ==> m[n] == VolumesOn(vols, n)
    ensures IsMost(vols, most)
  {
    hide VolumesOn;
    forall n ensures |VolumesOn(vols, n)| <= most {
      if n in m { assert |m[n]| <= most; }
    }
    if most != 0 {
      var n :| n in m && |m[n]| == most;
      assert |VolumesOn(vols, n)| == most;
    }
  }

  /** A node is scored exactly if it has an ID, by the largest count less its own. */
  lemma {:induction false} ScoreOf(nodes: seq<KubeNode>, vols: seq<Volume>, most: nat, n: KubeNode, score: int)
    requires n in nodes && forall i, j :: 0 <= i < j < |nodes| ==> nodes[i].name != nodes[j].name
    ensures (n.name, score) in Scored(nodes, vols, most) <==>
              n.id.Some? && n.id.value != "" && score + |VolumesOn(vols, n.id.value)| == most
  {
    hide VolumesOn;
    var init, last := nodes[..|nodes| - 1], nodes[|nodes| - 1];
    assert nodes == init + [last];
    OnlyNodesScore(init, vols, most);
    if n in init {
      ScoreOf(init, vols, most, n, score);
    } else {
      assert n == last;
    }
  }

  lemma {:induction false} OnlyNodesScore(nodes: seq<KubeNode>, vols: seq<Volume>, most: nat)
    ensures forall p :: p in Scored(nodes, vols, most) ==> exists n :: n in nodes && n.name == p.0
  {
    hide VolumesOn;
    if nodes != [] {
      OnlyNodesScore(nodes[..|nodes| - 1], vols, most);
      assert nodes == nodes[..|nodes| - 1] + [nodes[|nodes| - 1]];
    }
  }

  /** So of two nodes the one with fewer volumes scores higher, by the difference, and no node scores higher than one
      without volumes. */
  lemma ScoresRank(nodes: seq<KubeNode>, vols: seq<Volume>, most: nat, m: KubeNode, x: int, n: KubeNode, y: int)
    requires IsMost(vols, most) && forall i, j :: 0 <= i < j < |nodes| ==> nodes[i].name != nodes[j].name
    requires m in nodes && n in nodes && (m.name, x) in Scored(nodes, vols, most) && (n.name, y) in Scored(nodes, vols, most)
    ensures m.id.Some? && n.id.Some? && x - y == CountOn(vols, n.id.value) - CountOn(vols, m.id.value)
    ensures 0 <= x && (CountOn(vols, m.id.value) == 0 ==> y <= x)
  {
    ScoreOf(nodes, vols, most, m, x);
    ScoreOf(nodes, vols, most, n, y);
    CountIsLength(vols, m.id.value);
    CountIsLength(vols, n.id.value);
    assert |VolumesOn(vols, m.id.value)| <= most && |VolumesOn(vols, n.id.value)| <= most;
  }

  /** Which of the first k volumes are on the node. */
  ghost function IndicesOn(vols: seq<Volume>, node: string, k: nat): set<int>
    requires k <= |vols|
  {
    set i | 0 <= i < k && vols[i].nodeId == node
  }

  /** How many of the volumes are on the node. */
  ghost function CountOn(vols: seq<Volume>, node: string): nat {
    |IndicesOn(vols, node, |vols|)|
  }

  lemma IndicesOnNext(vols: seq<Volume>, node: string, k: nat)
    requires k < |vols|
    ensures |IndicesOn(vols, node, k + 1)| == |IndicesOn(vols, node, k)| + (if vols[k].nodeId == node then 1 else 0)
  {
    assert IndicesOn(vols, node, k + 1) == if vols[k].nodeId == node then IndicesOn(vols, node, k) + {k} else IndicesOn(vols, node, k);
  }

  lemma {:induction false} CountUpTo(vols: seq<Volume>, node: string, k: nat)
    requires k <= |vols|
    ensures |VolumesOn(vols[..k], node)| == |IndicesOn(vols, node, k)|
  {
    if k > 0 {
      CountUpTo(vols, node, k - 1);
      IndicesOnNext(vols, node, k - 1);
      assert vols[..k][..k - 1] == vols[..k - 1];
    }
    hide IndicesOn;
  }

  lemma CountIsLength(vols: seq<Volume>, node: string)
    ensures |VolumesOn(vols, node)| == CountOn(vols, node)
  {
    CountUpTo(vols, node, |vols|);
    assert vols[..|vols|] == vols;
  }

  /** extender.go:577-620: a node's score is the largest number of volumes on any node less its own,
      so it is never negative, and the fewer volumes the higher. */
  method Score(nodes: seq<KubeNode>, vols: seq<Volume>) returns (hostPriority: seq<(string, int)>)
    ensures exists most: nat :: IsMost(vols, most) && hostPriority == Scored(nodes, vols, most)
  {
    hide VolumesOn;
    var mapping := NodeVolumeCountMapping(vols);
    var priority, maxVolumeCount := NodePrioritize(mapping);
    ghost var most := maxVolumeCount;
    MostIsMax(vols, mapping, most);
    hide IsMost, IsMaxCount;
    hostPriority := [];
    for i := 0 to |nodes|
      invariant hostPriority == Scored(nodes[..i], vols, most)
    {
      assert nodes[..i + 1][..i] == nodes[..i];
      if nodes[i].id.None? { continue; }
      if nodes[i].id.value == "" { continue; }
      var rank := if nodes[i].id.value in priority then priority[nodes[i].id.value] else maxVolumeCount;
      hostPriority := hostPriority + [(nodes[i].name, rank)];
    }
    assert nodes[..|nodes|] == nodes;
  }
}
