// Releasing the requests of an ACR one by one, as CreateVolume does for each of a pod's volumes.

module Release {
  import opened Types
  import opened Stores
  import opened VolumeOps

  /** The requests that remain once those named in `gone` are served, in their old order. */
  function Kept(rs: seq<ReservationRequest>, gone: set<string>): seq<ReservationRequest> {
    if rs == [] then []
    else
      var last := rs[|rs| - 1];
      Kept(rs[..|rs| - 1], gone) + (if last.cap.name in gone then [] else [last])
  }

  /** getVolumeReservation finds the request by name, ReleaseReservation removes it. */
  ghost predicate ReleasesNamed(x: map<string, ACR>, p: string, name: string, y: map<string, ACR>) {
    p in x && exists i: nat :: FirstNamed(x[p].requests, name, i) && y == Released(x, x[p], i)
  }

  /** states[k + 1] follows states[k] by releasing the request called order[k]. */
  ghost predicate ReleaseRun(p: string, order: seq<string>, states: seq<map<string, ACR>>) {
    |states| == |order| + 1 && forall k :: 0 <= k < |order| ==> ReleasesNamed(states[k], p, order[k], states[k + 1])
  }

  function Served(order: seq<string>, k: nat): (s: set<string>)
    requires k <= |order|
    ensures forall n :: n in s <==> n in order[..k]
  {
    set i | 0 <= i < k :: order[i]
  }

  lemma {:induction false} KeptElements(rs: seq<ReservationRequest>, gone: set<string>)
    ensures forall r :: r in Kept(rs, gone) <==> r in rs && r.cap.name !in gone
    ensures UniqueRequests(rs) ==> UniqueRequests(Kept(rs, gone))
  {
    if rs != [] {
      var init, last := rs[..|rs| - 1], rs[|rs| - 1];
      KeptElements(init, gone);
      assert rs == init + [last];
      var k := Kept(init, gone);
      if UniqueRequests(rs) {
        forall i | 0 <= i < |k| ensures k[i].cap.name != last.cap.name {
          assert k[i] in init;
        }
      }
    }
  }

  lemma {:induction false} KeptNone(rs: seq<ReservationRequest>)
    ensures Kept(rs, {}) == rs
  {
    if rs != [] {
      KeptNone(rs[..|rs| - 1]);
      assert rs == rs[..|rs| - 1] + [rs[|rs| - 1]];
    }
  }

  lemma {:induction false} KeptWithout(rs: seq<ReservationRequest>, gone: set<string>, name: string)
    requires forall r :: r in rs ==> r.cap.name != name
    ensures Kept(rs, gone + {name}) == Kept(rs, gone)
  {
    if rs != [] {
      assert rs[|rs| - 1] in rs;
      KeptWithout(rs[..|rs| - 1], gone, name);
    }
  }

  lemma RemoveInside(k: seq<ReservationRequest>, t: seq<ReservationRequest>, name: string, i: nat)
    requires FirstNamed(k + t, name, i) && i < |k|
    ensures FirstNamed(k, name, i) && k[i] in k && k[i].cap.name == name
    ensures RemoveAt(k + t, i) == RemoveAt(k, i) + t
  {
    assert forall j :: 0 <= j < |k| ==> k[j] == (k + t)[j];
  }

  /** Removing the request found by name is the same as keeping the others. */
  lemma {:induction false} RemovalKeepsOthers(rs: seq<ReservationRequest>, gone: set<string>, name: string, i: nat)
    requires UniqueRequests(rs) && FirstNamed(Kept(rs, gone), name, i)
    ensures RemoveAt(Kept(rs, gone), i) == Kept(rs, gone + {name})
  {
    var init, last := rs[..|rs| - 1], rs[|rs| - 1];
    var k, t := Kept(init, gone), if last.cap.name in gone then [] else [last];
    if i == |k| {
      assert Kept(rs, gone)[i] == last;
      forall r | r in init ensures r.cap.name != name { NotLast(rs, r); }
      KeptWithout(init, gone, name);
      hide UniqueRequests, FirstNamed;
    } else {
      hide UniqueRequests, FirstNamed;
      InRange(k, t, name, i);
      RemoveInside(k, t, name, i);
      KeptElements(init, gone);
      NotLast(rs, k[i]);
      RemovalKeepsOthers(init, gone, name, i);
    }
  }

  lemma InRange(k: seq<ReservationRequest>, t: seq<ReservationRequest>, name: string, i: nat)
    requires FirstNamed(k + t, name, i) && i != |k| && |t| <= 1
    ensures i < |k|
  {
  }

  lemma NotLast(rs: seq<ReservationRequest>, r: ReservationRequest)
    requires UniqueRequests(rs) && rs != [] && r in rs[..|rs| - 1]
    ensures r.cap.name != rs[|rs| - 1].cap.name && UniqueRequests(rs[..|rs| - 1])
  {
    var j :| 0 <= j < |rs| - 1 && rs[j] == r;
  }

  lemma KeptCount(rs: seq<ReservationRequest>, order: seq<string>, k: nat)
    requires UniqueRequests(rs) && Distinct(order) && k <= |order| && (forall j :: 0 <= j < k ==> NameAmong(rs, order[j]))
    ensures |Kept(rs, Served(order, k))| == |rs| - k
    decreases k
  {
    if k == 0 {
      assert Served(order, 0) == {};
      KeptNone(rs);
    } else {
      KeptCount(rs, order, k - 1);
      var gone, name := Served(order, k - 1), order[k - 1];
      assert Served(order, k) == gone + {name};
      KeptElements(rs, gone);
      assert NameAmong(rs, name);
      var r :| r in rs && r.cap.name == name;
      assert r in Kept(rs, gone);
      var i :| 0 <= i < |Kept(rs, gone)| && Kept(rs, gone)[i] == r;
      assert FirstNamed(Kept(rs, gone), name, i);
      RemovalKeepsOthers(rs, gone, name, i);
    }
  }

  ghost predicate NameAmong(rs: seq<ReservationRequest>, name: string) {
    exists r :: r in rs && r.cap.name == name
  }

  /** However the volumes of a pod are created one after another: after k of n releases the ACR holds
      exactly the other requests in their old order, the n-th release deletes it, and no release
      touches another ACR. */
  lemma {:induction false} AnyOrderReleasesAll(p: string, order: seq<string>, states: seq<map<string, ACR>>, k: nat)
    requires ReleaseRun(p, order, states) && Distinct(order) && k < |states|
    requires p in states[0] && states[0][p].name == p && UniqueRequests(states[0][p].requests) && states[0][p].requests != []
    ensures var rs := states[0][p].requests;
            if k < |rs|
            then states[k] == states[0][p := states[0][p].(requests := Kept(rs, Served(order, k)))]
            else k == |rs| && states[k] == states[0] - {p}
    ensures forall j :: 0 <= j < k ==> NameAmong(states[0][p].requests, order[j])
  {
    var acr := states[0][p];
    var rs := acr.requests;
    if k == 0 {
      assert Served(order, 0) == {};
      KeptNone(rs);
      assert states[0] == states[0][p := acr];
    } else {
      AnyOrderReleasesAll(p, order, states, k - 1);
      assert ReleasesNamed(states[k - 1], p, order[k - 1], states[k]);
      ReleaseStep(p, order, states[0], states[k - 1], states[k], k - 1);
    }
  }

  lemma ReleaseStep(p: string, order: seq<string>, s: map<string, ACR>, x: map<string, ACR>, y: map<string, ACR>, k: nat)
    requires p in s && s[p].name == p && UniqueRequests(s[p].requests) && Distinct(order) && k < |order|
    requires k < |s[p].requests| && x == s[p := s[p].(requests := Kept(s[p].requests, Served(order, k)))]
    requires forall j :: 0 <= j < k ==> NameAmong(s[p].requests, order[j])
    requires ReleasesNamed(x, p, order[k], y)
    ensures NameAmong(s[p].requests, order[k])
    ensures if k + 1 < |s[p].requests|
            then y == s[p := s[p].(requests := Kept(s[p].requests, Served(order, k + 1)))]
            else y == s - {p}
  {
    hide UniqueRequests, Kept, Distinct;
    var rs, name, kept := s[p].requests, order[k], Kept(s[p].requests, Served(order, k));
    var i: nat :| FirstNamed(x[p].requests, name, i) && y == Released(x, x[p], i);
    KeptCount(rs, order, k);
    RemovalKeepsOthers(rs, Served(order, k), name, i);
    assert Served(order, k + 1) == Served(order, k) + {name};
    KeptElements(rs, Served(order, k));
    assert kept[i] in kept && NameAmong(rs, name);
    hide FirstNamed, NameAmong;
    assert s - {p} == x - {p};
  }

  // ---- one claim in two reservations ----

  /** Releases of any ACRs, one after the other: step k releases the request called names[k] of ps[k]. */
  ghost predicate ReleasesAlong(ps: seq<string>, names: seq<string>, states: seq<map<string, ACR>>) {
    && |ps| == |names| && |states| == |ps| + 1
    && forall k :: 0 <= k < |ps| ==> ReleasesNamed(states[k], ps[k], names[k], states[k + 1])
  }

  ghost predicate Named(acrs: map<string, ACR>) {
    forall p :: p in acrs ==> acrs[p].name == p
  }

  /** When two pods share a claim, two reserved ACRs hold a request of its name, and a release finds either of them first. The
      other one keeps its promise through any releases until one is made from itself. */
  lemma {:induction false} OtherHolderKeepsPromise(ps: seq<string>, names: seq<string>, states: seq<map<string, ACR>>,
                                                   q: string, namespace: string, name: string, k: nat)
    requires ReleasesAlong(ps, names, states) && Named(states[0]) && k < |states|
    requires q in states[0] && Holds(states[0][q], namespace, name) && forall j :: 0 <= j < k ==> ps[j] != q
    ensures Named(states[k]) && q in states[k] && states[k][q] == states[0][q] && Holds(states[k][q], namespace, name)
  {
    if k > 0 {
      OtherHolderKeepsPromise(ps, names, states, q, namespace, name, k - 1);
      assert ReleasesNamed(states[k - 1], ps[k - 1], names[k - 1], states[k]);
    }
  }

  /** A release from an ACR with distinct names takes the claim off that ACR. */
  lemma ReleasedNoLonger(x: map<string, ACR>, p: string, name: string, y: map<string, ACR>, namespace: string)
    requires ReleasesNamed(x, p, name, y) && x[p].name == p && UniqueRequests(x[p].requests)
    ensures p in y ==> !Holds(y[p], namespace, name)
  {
    var i: nat :| FirstNamed(x[p].requests, name, i) && y == Released(x, x[p], i);
    if p in y {
      forall j | 0 <= j < |y[p].requests| ensures y[p].requests[j].cap.name != name {
        assert y[p].requests[j] == x[p].requests[if j < i then j else j + 1];
      }
    }
  }
}
