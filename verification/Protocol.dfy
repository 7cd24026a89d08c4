// The reservation handshake as a state machine over the API objects: the extender asks, the single
// reservation worker reads ACs, then reservations, then writes its decision, and CreateVolume reads a
// reservation and its AC, writes the AC and releases. Between any two of these steps every other one may happen.

module Protocol {
  import opened Types
  import opened Accounting
  import opened Planner
  import opened Reservation
  import opened Confirmation
  import opened Stores
  import opened SchedulerExtender

  /** How far the reservation worker is with `target`, the ACR it read. */
  datatype Worker =
    | Idle
    | Picked(target: ACR)
    | HasACs(target: ACR, capacity: seq<AC>)
    | Ready(target: ACR, capacity: seq<AC>, reservations: seq<ACR>)

  /** A CreateVolume call under way: the ACR it read, the number of its request there, the node it was asked to
      use, the AC it read, the Volume CR it created, and whether it has written the AC since. The controller's
      request lock admits one call at a time (controller.go:233-246). */
  datatype Flight = Flight(acr: ACR, num: nat, node: string, ac: Option<AC>, placed: Option<string>, taken: bool)

  /** `users` are the volumes that take whole drives, each with the name of the AC of its drive; `home` is the
      node of every AC there is or was. */
  datatype World = World(acs: map<string, AC>, acrs: map<string, ACR>, users: map<string, string>, worker: Worker,
                         flight: Option<Flight>, home: map<string, string>)

  datatype Event =
    | Requests(acr: ACR)
    | Resends(name: string, nodes: seq<string>)
    | Picks(picked: string)
    | ReadsACs(list: seq<AC>)
    | ReadsACRs(acrList: seq<ACR>)
    | Writes(d: Decision)
    | GivesUp
    | Begins(consumed: string, num: nat, node: string)
    | Finds(found: string)
    | Converts(lvg: AC)
    | Places(id: string)
    | Takes(bytes: int)
    | Releases
    | Ends
    | CapacityChanges(acs: map<string, AC>, remaining: map<string, string>)
    | Deletes(deleted: string)

  /** A request as the extender builds it: names distinct, nothing promised yet. */
  ghost predicate FreshRequest(acr: ACR) {
    && acr.status.Requested? && acr.requested != [] && UniqueRequests(acr.requests)
    && forall i :: 0 <= i < |acr.requests| ==> acr.requests[i].reservations == []
  }

  /** AC a may only become y: same name and node, and a drive keeps its class and never shrinks. */
  predicate NoWorse(x: AC, y: AC) {
    y.name == x.name && y.nodeId == x.nodeId && (!IsLVG(x.sc) ==> y.sc == x.sc && x.size <= y.size)
  }

  /** A drive that was used up has room again. */
  predicate Refilled(x: AC, y: AC) {
    !IsLVG(x.sc) && x.size <= 0 < y.size
  }

  ghost predicate UsedBy(users: map<string, string>, id: string, a: string) {
    id in users && users[id] == a
  }

  /** Volumes may go, and a used-up drive gets its room back only when a volume on it goes or there was none. */
  ghost predicate Frees(acs: map<string, AC>, m: map<string, AC>, users: map<string, string>, remaining: map<string, string>) {
    && (forall id :: id in remaining ==> UsedBy(users, id, remaining[id]))
    && (forall a, id :: a in m && a in acs && Refilled(acs[a], m[a]) && UsedBy(users, id, a) ==>
          exists gone :: UsedBy(users, gone, a) && gone !in remaining)
  }

  /** The call may read AC a: its request names a, a is on its node, and a second read is of the same AC. */
  predicate MayRead(f: Flight, acs: map<string, AC>, a: string) {
    && f.placed.None? && f.num < |f.acr.requests| && a in f.acr.requests[f.num].reservations && a in acs && acs[a].nodeId == f.node
    && (f.ac.Some? ==> f.ac.value.name == a)
  }

  /** The call writes an AC: it has read one, and nobody has written it since. */
  predicate MayWrite(w: World) {
    w.flight.Some? && w.flight.value.ac.Some?
    && w.flight.value.ac.value.name in w.acs && w.acs[w.flight.value.ac.value.name] == w.flight.value.ac.value
  }

  /** The call creates its Volume CR, once: a request for a volume group has its AC converted by then. */
  predicate MayPlace(flight: Option<Flight>) {
    && flight.Some? && flight.value.ac.Some? && flight.value.placed.None? && flight.value.num < |flight.value.acr.requests|
    && (IsLVG(flight.value.acr.requests[flight.value.num].cap.sc) ==> IsLVG(flight.value.ac.value.sc))
  }

  /** The AC less the volume (volume_operations.go:244-249). */
  function Taken(ac: AC, bytes: int): AC {
    ac.(size := if IsLVG(ac.sc) then ac.size - bytes else 0)
  }

  /** ReleaseReservation with the copy the call read (helpers.go:85-110, 134-147): an update of an ACR that has changed
      fails, while the deletion of an ACR with one request goes by its name only. */
  function AfterRelease(acrs: map<string, ACR>, copy: ACR, num: nat): map<string, ACR>
    requires num < |copy.requests|
  {
    if |copy.requests| == 1 then acrs - {copy.name}
    else if copy.name in acrs && acrs[copy.name] == copy then Released(acrs, copy, num)
    else acrs
  }

  ghost predicate Next(sequential: bool, w: World, e: Event, t: World) {
    match e
    case Requests(acr) => acr.name !in w.acrs && FreshRequest(acr) && t == w.(acrs := w.acrs[acr.name := acr])
    case Resends(n, nodes) =>
      && n in w.acrs && !w.acrs[n].status.Requested? && nodes != []
      && (w.acrs[n].status.Reserved? ==> forall k :: k in nodes ==> k !in w.acrs[n].reserved)
      && t == w.(acrs := w.acrs[n := Resent(w.acrs[n], nodes)])
    case Picks(n) => w.worker.Idle? && n in w.acrs && t == w.(worker := Picked(w.acrs[n]))
    case ReadsACs(l) => w.worker.Picked? && Lists(l, w.acs) && t == w.(worker := HasACs(w.worker.target, l))
    case ReadsACRs(l) =>
      w.worker.HasACs? && Lists(l, w.acrs) && t == w.(worker := Ready(w.worker.target, w.worker.capacity, l))
    case Writes(d) =>
      && w.worker.Ready? && Decides(sequential, w.worker.capacity, w.worker.reservations, w.worker.target, d)
      && t == Written(w, d).(worker := Idle)
    case GivesUp => t == w.(worker := Idle)
    case Begins(acr, i, node) =>
      && w.flight.None? && acr in w.acrs && w.acrs[acr].status.Reserved? && i < |w.acrs[acr].requests|
      && t == w.(flight := Some(Flight(w.acrs[acr], i, node, None, None, false)))
    case Finds(a) =>
      && w.flight.Some? && MayRead(w.flight.value, w.acs, a)
      && t == w.(flight := Some(w.flight.value.(ac := Some(w.acs[a]))))
    case Converts(x) =>
      && MayWrite(w) && w.flight.value.placed.None? && w.flight.value.num < |w.flight.value.acr.requests|
      && IsLVG(w.flight.value.acr.requests[w.flight.value.num].cap.sc)
      && x.name == w.flight.value.ac.value.name && x.nodeId == w.flight.value.ac.value.nodeId && IsLVG(x.sc)
      && t == w.(acs := w.acs[x.name := x])
    case Places(id) =>
      && MayPlace(w.flight) && id !in w.users
      && t == w.(flight := Some(w.flight.value.(placed := Some(id))),
                 users := if IsLVG(w.flight.value.ac.value.sc) then w.users else w.users[id := w.flight.value.ac.value.name])
    case Takes(bytes) =>
      && MayWrite(w) && w.flight.value.placed.Some? && !w.flight.value.taken
      && t == w.(acs := w.acs[w.flight.value.ac.value.name := Taken(w.flight.value.ac.value, bytes)],
                 flight := Some(w.flight.value.(taken := true)))
    case Releases =>
      && w.flight.Some? && w.flight.value.num < |w.flight.value.acr.requests|
      && t == w.(acrs := AfterRelease(w.acrs, w.flight.value.acr, w.flight.value.num), flight := None)
    case Ends => t == w.(flight := None)
    case CapacityChanges(m, u) =>
      && (forall a :: a in m ==> a in w.acs && NoWorse(w.acs[a], m[a])) && Frees(w.acs, m, w.users, u)
      && t == w.(acs := m, users := u)
    case Deletes(n) => t == w.(acrs := w.acrs - {n})
  }

  /** The write succeeds only if the ACR is still the one that was read. */
  function Written(w: World, d: Decision): World
    requires w.worker.Ready?
  {
    var r := w.worker.target;
    if (d.Confirm? || d.Reject?) && r.name in w.acrs && w.acrs[r.name] == r then w.(acrs := w.acrs[r.name := d.acr]) else w
  }

  // ---- what reservations say ----

  /** Request i of the reserved ACR p names AC a. */
  predicate Names(acrs: map<string, ACR>, p: string, i: int, a: string) {
    p in acrs && acrs[p].status.Reserved? && 0 <= i < |acrs[p].requests| && a in acrs[p].requests[i].reservations
  }

  function ClassOf(acrs: map<string, ACR>, p: string, i: int): StorageClass
    requires p in acrs && 0 <= i < |acrs[p].requests|
  {
    acrs[p].requests[i].cap.sc
  }

  /** An AC named by two requests, in one ACR or in two, is named by volume-group requests only. */
  ghost predicate Exclusive(acrs: map<string, ACR>) {
    forall p, q, i, j, a :: Names(acrs, p, i, a) && Names(acrs, q, j, a) && (p != q || i != j) ==>
      IsLVG(ClassOf(acrs, p, i)) && IsLVG(ClassOf(acrs, q, j))
  }

  ghost predicate WellFormed(acrs: map<string, ACR>) {
    forall p :: p in acrs ==> acrs[p].name == p && UniqueRequests(acrs[p].requests)
  }

  // ---- the same for a list of ACRs ----

  predicate NamesAt(l: seq<ACR>, k: int, i: int, a: string) {
    0 <= k < |l| && l[k].status.Reserved? && 0 <= i < |l[k].requests| && a in l[k].requests[i].reservations
  }

  ghost predicate ExclusiveList(l: seq<ACR>) {
    forall k, m, i, j, a :: NamesAt(l, k, i, a) && NamesAt(l, m, j, a) && (k != m || i != j) ==>
      IsLVG(l[k].requests[i].cap.sc) && IsLVG(l[m].requests[j].cap.sc)
  }

  lemma ListedNames(acrs: map<string, ACR>, l: seq<ACR>, keys: seq<string>, k: int, i: int, a: string)
    requires ListedBy(l, acrs, keys) && NamesAt(l, k, i, a)
    ensures Names(acrs, keys[k], i, a) && l[k] == acrs[keys[k]]
  {
  }

  lemma ListedIsExclusive(acrs: map<string, ACR>, l: seq<ACR>)
    requires Exclusive(acrs) && Lists(l, acrs)
    ensures ExclusiveList(l)
  {
    hide Exclusive, ListedBy;
    var keys :| ListedBy(l, acrs, keys);
    forall k, m, i, j, a | NamesAt(l, k, i, a) && NamesAt(l, m, j, a) && (k != m || i != j)
      ensures IsLVG(l[k].requests[i].cap.sc) && IsLVG(l[m].requests[j].cap.sc)
    {
      ListedPair(acrs, l, keys, k, m, i, j, a);
    }
  }

  lemma ListedPair(acrs: map<string, ACR>, l: seq<ACR>, keys: seq<string>, k: int, m: int, i: int, j: int, a: string)
    requires Exclusive(acrs) && ListedBy(l, acrs, keys) && NamesAt(l, k, i, a) && NamesAt(l, m, j, a) && (k != m || i != j)
    ensures IsLVG(l[k].requests[i].cap.sc) && IsLVG(l[m].requests[j].cap.sc)
  {
    ListedNames(acrs, l, keys, k, i, a);
    ListedNames(acrs, l, keys, m, j, a);
    assert k != m ==> keys[k] != keys[m];
    hide ListedBy;
    var p, q := keys[k], keys[m];
    assert p != q || i != j;
  }

  lemma {:induction false} NamedAtIsConfirmed(l: seq<ACR>, k: int, i: int, a: string)
    requires NamesAt(l, k, i, a)
    ensures NamedIn(ConfirmedRequests(l), a)
  {
    var init, rs := l[..|l| - 1], ConfirmedRequests(l);
    if k == |l| - 1 {
      var at := |ConfirmedRequests(init)| + i;
      assert rs[at] == l[k].requests[i];
    } else {
      NamedAtIsConfirmed(init, k, i, a);
      var at :| 0 <= at < |ConfirmedRequests(init)| && a in ConfirmedRequests(init)[at].reservations;
      assert rs[at] == ConfirmedRequests(init)[at];
    }
  }

  lemma {:induction false} ConfirmedIsListed(l: seq<ACR>, r: ReservationRequest) returns (k: nat, i: nat)
    requires r in ConfirmedRequests(l)
    ensures k < |l| && l[k].status.Reserved? && i < |l[k].requests| && l[k].requests[i] == r
  {
    var last := |l| - 1;
    if l[last].status.Reserved? && r in l[last].requests {
      k := last;
      i :| 0 <= i < |l[last].requests| && l[last].requests[i] == r;
    } else {
      k, i := ConfirmedIsListed(l[..last], r);
    }
  }

  lemma {:induction false} FirstClassWitness(rs: seq<ReservationRequest>, a: string) returns (r: ReservationRequest)
    requires NamedIn(rs, a)
    ensures r in rs && a in r.reservations && r.cap.sc == FirstClass(rs, a)
  {
    var init := rs[..|rs| - 1];
    if NamedIn(init, a) { r := FirstClassWitness(init, a); } else { r := rs[|rs| - 1]; }
  }

  /** If the first request naming a is for LVG, every listed request naming a is. */
  lemma FirstClassSpeaksForAll(l: seq<ACR>, k: int, i: int, a: string)
    requires ExclusiveList(l) && NamesAt(l, k, i, a)
    ensures NamedIn(ConfirmedRequests(l), a)
    ensures IsLVG(FirstClass(ConfirmedRequests(l), a)) ==> IsLVG(l[k].requests[i].cap.sc)
  {
    NamedAtIsConfirmed(l, k, i, a);
    var r := FirstClassWitness(ConfirmedRequests(l), a);
    var m, j := ConfirmedIsListed(l, r);
    assert NamesAt(l, m, j, a);
  }

  // ---- the snapshot never misses a promise ----

  /** Request r is one of the reserved requests of list l, in an ACR called p. */
  ghost predicate Known(l: seq<ACR>, p: string, r: ReservationRequest) {
    exists k, i :: 0 <= k < |l| && l[k].name == p && l[k].status.Reserved? && 0 <= i < |l[k].requests| && l[k].requests[i] == r
  }

  /** Everything promised now was promised when the list was read: only the worker itself promises. */
  ghost predicate Dominates(l: seq<ACR>, acrs: map<string, ACR>) {
    forall p, i :: p in acrs && acrs[p].status.Reserved? && 0 <= i < |acrs[p].requests| ==> Known(l, p, acrs[p].requests[i])
  }

  lemma ListedDominates(l: seq<ACR>, acrs: map<string, ACR>)
    requires Lists(l, acrs) && WellFormed(acrs)
    ensures Dominates(l, acrs)
  {
    var keys :| ListedBy(l, acrs, keys);
    forall p, i | p in acrs && acrs[p].status.Reserved? && 0 <= i < |acrs[p].requests| ensures Known(l, p, acrs[p].requests[i]) {
      var k :| 0 <= k < |keys| && keys[k] == p;
      assert l[k] == acrs[p];
      assert l[k].requests[i] == acrs[p].requests[i];
    }
  }

  // ---- steps that only take promises away ----

  ghost predicate Drops(before: seq<ReservationRequest>, after: seq<ReservationRequest>, n: nat) {
    n < |before| && after == RemoveAt(before, n)
  }

  /** Every promise in y is a promise of x. */
  ghost predicate Fewer(x: map<string, ACR>, y: map<string, ACR>) {
    forall p :: p in y && y[p].status.Reserved? ==>
      && p in x && x[p].status.Reserved? && y[p].reserved == x[p].reserved
      && (y[p].requests == x[p].requests || exists n :: Drops(x[p].requests, y[p].requests, n))
  }

  /** Where request i of y[p] was in x[p]. */
  ghost function Source(x: map<string, ACR>, y: map<string, ACR>, p: string, i: nat): (j: nat)
    requires Fewer(x, y) && p in y && y[p].status.Reserved? && i < |y[p].requests|
    ensures j < |x[p].requests| && x[p].requests[j] == y[p].requests[i]
  {
    if y[p].requests == x[p].requests then i
    else
      var n :| Drops(x[p].requests, y[p].requests, n);
      if i < n then i else i + 1
  }

  lemma SourceInjective(x: map<string, ACR>, y: map<string, ACR>, p: string, i: nat, j: nat)
    requires Fewer(x, y) && p in y && y[p].status.Reserved? && i < |y[p].requests| && j < |y[p].requests| && i != j
    ensures Source(x, y, p, i) != Source(x, y, p, j)
  {
  }

  lemma FewerIsExclusive(x: map<string, ACR>, y: map<string, ACR>)
    requires Exclusive(x) && Fewer(x, y)
    ensures Exclusive(y)
  {
    forall p, q, i, j, a | Names(y, p, i, a) && Names(y, q, j, a) && (p != q || i != j)
      ensures IsLVG(ClassOf(y, p, i)) && IsLVG(ClassOf(y, q, j))
    {
      assert Names(x, p, Source(x, y, p, i), a) && Names(x, q, Source(x, y, q, j), a);
      if p == q { SourceInjective(x, y, p, i, j); }
    }
  }

  lemma FewerIsDominated(l: seq<ACR>, x: map<string, ACR>, y: map<string, ACR>)
    requires Dominates(l, x) && Fewer(x, y)
    ensures Dominates(l, y)
  {
    hide Known;
    forall p, i | p in y && y[p].status.Reserved? && 0 <= i < |y[p].requests| ensures Known(l, p, y[p].requests[i]) {
      assert x[p].requests[Source(x, y, p, i)] == y[p].requests[i];
    }
  }

  // ---- the node each promise is for ----

  predicate LivesOn(home: map<string, string>, a: string, n: string) {
    a in home && home[a] == n
  }

  /** Exactly one of the names is an AC of node n. */
  ghost predicate OneOn(home: map<string, string>, names: seq<string>, n: string) {
    exists k :: 0 <= k < |names| && LivesOn(home, names[k], n)
                && forall j :: 0 <= j < |names| && LivesOn(home, names[j], n) ==> j == k
  }

  ghost predicate HandedOff(home: map<string, string>, acrs: map<string, ACR>) {
    forall p, i, n :: p in acrs && acrs[p].status.Reserved? && 0 <= i < |acrs[p].requests| && n in acrs[p].reserved ==>
      OneOn(home, acrs[p].requests[i].reservations, n)
  }

  ghost predicate AtHome(home: map<string, string>, acs: map<string, AC>) {
    forall a :: a in acs ==> acs[a].name == a && LivesOn(home, a, acs[a].nodeId)
  }

  ghost predicate ListAtHome(home: map<string, string>, l: seq<AC>) {
    UniqueNames(l) && forall x :: x in l ==> LivesOn(home, x.name, x.nodeId)
  }

  lemma ListedAtHome(home: map<string, string>, acs: map<string, AC>, l: seq<AC>)
    requires AtHome(home, acs) && Lists(l, acs)
    ensures ListAtHome(home, l)
  {
    var keys :| ListedBy(l, acs, keys);
    assert forall i :: 0 <= i < |l| ==> l[i].name == keys[i];
  }

  lemma FewerIsHandedOff(home: map<string, string>, x: map<string, ACR>, y: map<string, ACR>)
    requires HandedOff(home, x) && Fewer(x, y)
    ensures HandedOff(home, y)
  {
    hide OneOn;
    forall p, i, n | p in y && y[p].status.Reserved? && 0 <= i < |y[p].requests| && n in y[p].reserved
      ensures OneOn(home, y[p].requests[i].reservations, n)
    {
      assert x[p].requests[Source(x, y, p, i)] == y[p].requests[i];
    }
  }

  // ---- sequential mode ----

  /** Distinct reserved ACRs ask for disjoint sets of volume-group classes. */
  ghost predicate Sequential(acrs: map<string, ACR>) {
    forall p, q, i, j :: p in acrs && q in acrs && p != q && acrs[p].status.Reserved? && acrs[q].status.Reserved?
                         && 0 <= i < |acrs[p].requests| && 0 <= j < |acrs[q].requests| && IsLVG(ClassOf(acrs, p, i)) ==>
      ClassOf(acrs, p, i) != ClassOf(acrs, q, j)
  }

  lemma FewerIsSequential(x: map<string, ACR>, y: map<string, ACR>)
    requires Sequential(x) && Fewer(x, y)
    ensures Sequential(y)
  {
    forall p, q, i, j | p in y && q in y && p != q && y[p].status.Reserved? && y[q].status.Reserved?
                        && 0 <= i < |y[p].requests| && 0 <= j < |y[q].requests| && IsLVG(ClassOf(y, p, i))
      ensures ClassOf(y, p, i) != ClassOf(y, q, j)
    {
      assert ClassOf(x, p, Source(x, y, p, i)) == ClassOf(y, p, i);
      assert ClassOf(x, q, Source(x, y, q, j)) == ClassOf(y, q, j);
    }
  }

  // ---- the invariant ----

  ghost predicate WorkerKnows(w: World) {
    match w.worker
    case Idle => true
    case Picked(r) => UniqueRequests(r.requests)
    case HasACs(r, l) => UniqueRequests(r.requests) && ListAtHome(w.home, l)
    case Ready(r, l, rl) => UniqueRequests(r.requests) && ListAtHome(w.home, l) && ExclusiveList(rl) && Dominates(rl, w.acrs)
  }

  /** The call holds a request of a reserved ACR and, once it has read one, an AC that the request names. */
  ghost predicate FlightKnows(flight: Option<Flight>) {
    flight.Some? ==>
      var f := flight.value;
      && f.acr.status.Reserved? && f.num < |f.acr.requests| && UniqueRequests(f.acr.requests)
      && (f.ac.Some? ==> f.ac.value.name in f.acr.requests[f.num].reservations)
  }

  ghost predicate Inv(sequential: bool, w: World) {
    && WellFormed(w.acrs) && Exclusive(w.acrs) && HandedOff(w.home, w.acrs) && AtHome(w.home, w.acs)
    && (sequential ==> Sequential(w.acrs)) && WorkerKnows(w) && FlightKnows(w.flight)
  }

  lemma ReleasedIsFewer(acrs: map<string, ACR>, p: string, n: nat)
    requires WellFormed(acrs) && p in acrs && n < |acrs[p].requests|
    ensures Fewer(acrs, Released(acrs, acrs[p], n)) && WellFormed(Released(acrs, acrs[p], n))
  {
    var y := Released(acrs, acrs[p], n);
    if |acrs[p].requests| != 1 {
      assert Drops(acrs[p].requests, y[p].requests, n);
    }
  }

  lemma AfterReleaseIsFewer(acrs: map<string, ACR>, copy: ACR, n: nat)
    requires WellFormed(acrs) && n < |copy.requests|
    ensures Fewer(acrs, AfterRelease(acrs, copy, n)) && WellFormed(AfterRelease(acrs, copy, n))
  {
    if |copy.requests| != 1 && copy.name in acrs && acrs[copy.name] == copy { ReleasedIsFewer(acrs, copy.name, n); }
  }

  lemma ReplacedIsFewer(acrs: map<string, ACR>, r: ACR)
    requires WellFormed(acrs) && UniqueRequests(r.requests) && !r.status.Reserved?
    ensures Fewer(acrs, acrs[r.name := r]) && WellFormed(acrs[r.name := r])
  {
  }

  lemma RejectedIsFewer(sequential: bool, w: World, d: Decision, t: World)
    requires Inv(sequential, w) && Next(sequential, w, Writes(d), t) && d.Reject?
    ensures Fewer(w.acrs, t.acrs) && WellFormed(t.acrs)
  {
    hide Exclusive, HandedOff, AtHome, Sequential, Decides, Fewer, WellFormed;
    RejectionIs(sequential, w.worker.capacity, w.worker.reservations, w.worker.target, d);
    ReplacedIsFewer(w.acrs, d.acr);
    SameIsFewer(w.acrs);
  }

  lemma SameIsFewer(acrs: map<string, ACR>)
    ensures Fewer(acrs, acrs)
  {
  }

  /** Every event but a confirmation takes promises away at most. */
  lemma StepIsFewer(sequential: bool, w: World, e: Event, t: World)
    requires Inv(sequential, w) && Next(sequential, w, e, t) && !(e.Writes? && e.d.Confirm?)
    ensures Fewer(w.acrs, t.acrs) && WellFormed(t.acrs)
  {
    hide Exclusive, HandedOff, AtHome, Sequential, WorkerKnows, FlightKnows, Decides, Lists, Frees, MayPlace, MayRead, MayWrite, AfterRelease;
    SameIsFewer(w.acrs);
    if e.Releases? {
      AfterReleaseIsFewer(w.acrs, w.flight.value.acr, w.flight.value.num);
      hide Fewer, WellFormed;
    } else if e.Requests? {
      ReplacedIsFewer(w.acrs, e.acr);
      hide Fewer, WellFormed;
    } else if e.Resends? {
      ReplacedIsFewer(w.acrs, Resent(w.acrs[e.name], e.nodes));
    } else if e.Writes? && e.d.Reject? {
      RejectedIsFewer(sequential, w, e.d, t);
      hide Fewer, WellFormed;
    } else if e.Deletes? {
      assert WellFormed(t.acrs);
    } else {
      assert t.acrs == w.acrs;
      hide Fewer, WellFormed;
    }
  }

  lemma RejectionIs(sequential: bool, acs: seq<AC>, acrs: seq<ACR>, r: ACR, d: Decision)
    requires Decides(sequential, acs, acrs, r, d) && d.Reject?
    ensures d.acr == r.(status := Rejected)
  {
  }

  /** What a step does to the ACs: a creation that has a current copy writes one AC under the same name and node,
      a capacity change leaves no drive worse, and nothing else touches them. */
  lemma ACsAfter(sequential: bool, w: World, e: Event, t: World)
    requires Next(sequential, w, e, t)
    ensures t.home == w.home
    ensures e.CapacityChanges? ==> t.acs == e.acs && forall a :: a in e.acs ==> a in w.acs && NoWorse(w.acs[a], e.acs[a])
    ensures e.Converts? ==> MayWrite(w) && CopyOf(w).name == e.lvg.name && CopyOf(w).nodeId == e.lvg.nodeId
                            && IsLVG(e.lvg.sc) && t.acs == w.acs[e.lvg.name := e.lvg]
    ensures e.Takes? ==> MayWrite(w) && t.acs == w.acs[CopyOf(w).name := Taken(CopyOf(w), e.bytes)]
    ensures !e.CapacityChanges? && !e.Converts? && !e.Takes? ==> t.acs == w.acs
  {
    hide Decides, Lists, Frees, MayPlace, MayRead, AfterRelease;
  }

  function CopyOf(w: World): AC
    requires MayWrite(w)
  {
    w.flight.value.ac.value
  }

  lemma StepKeepsHomes(sequential: bool, w: World, e: Event, t: World)
    requires AtHome(w.home, w.acs) && Next(sequential, w, e, t)
    ensures AtHome(t.home, t.acs) && t.home == w.home
  {
    hide Next;
    ACsAfter(sequential, w, e, t);
  }

  lemma StepKeepsFlight(sequential: bool, w: World, e: Event, t: World)
    requires WellFormed(w.acrs) && FlightKnows(w.flight) && AtHome(w.home, w.acs) && Next(sequential, w, e, t)
    ensures FlightKnows(t.flight)
  {
    hide Decides, Lists, Frees;
  }

  /** What a step does to the worker. */
  lemma WorkerAfter(sequential: bool, w: World, e: Event, t: World)
    requires Next(sequential, w, e, t)
    ensures match e
            case Picks(n) => n in w.acrs && t.worker == Picked(w.acrs[n])
            case ReadsACs(l) => w.worker.Picked? && Lists(l, w.acs) && t.worker == HasACs(w.worker.target, l)
            case ReadsACRs(l) =>
              w.worker.HasACs? && Lists(l, w.acrs) && t.worker == Ready(w.worker.target, w.worker.capacity, l) && t.acrs == w.acrs
            case _ => t.worker == w.worker || t.worker.Idle?
  {
    hide Decides, Lists, Frees, MayPlace, MayRead, MayWrite, AfterRelease;
  }

  lemma StepKeepsWorker(sequential: bool, w: World, e: Event, t: World)
    requires Inv(sequential, w) && Next(sequential, w, e, t) && !(e.Writes? && e.d.Confirm?)
    ensures WorkerKnows(t)
  {
    StepIsFewer(sequential, w, e, t);
    WorkerAfter(sequential, w, e, t);
    StepKeepsHomes(sequential, w, e, t);
    hide Next, Exclusive, HandedOff, AtHome, Sequential, Lists, Fewer, Dominates, ExclusiveList, ListAtHome;
    if e.ReadsACs? {
      ListedAtHome(w.home, w.acs, e.list);
    } else if e.ReadsACRs? {
      ListedIsExclusive(w.acrs, e.acrList);
      ListedDominates(e.acrList, w.acrs);
    } else if w.worker.Ready? {
      FewerIsDominated(w.worker.reservations, w.acrs, t.acrs);
    }
  }

  lemma QuietStepKeepsInv(sequential: bool, w: World, e: Event, t: World)
    requires Inv(sequential, w) && Next(sequential, w, e, t) && !(e.Writes? && e.d.Confirm?)
    ensures Inv(sequential, t)
  {
    hide Next, Exclusive, HandedOff, Sequential, Fewer, WellFormed, WorkerKnows, FlightKnows;
    StepIsFewer(sequential, w, e, t);
    StepKeepsHomes(sequential, w, e, t);
    StepKeepsFlight(sequential, w, e, t);
    StepKeepsWorker(sequential, w, e, t);
    FewerIsExclusive(w.acrs, t.acrs);
    FewerIsHandedOff(w.home, w.acrs, t.acrs);
    if sequential { FewerIsSequential(w.acrs, t.acrs); }
  }

  // ---- a confirmation ----

  /** The confirmation c of ACR r, planned from list l and reservations rl. */
  ghost predicate Confirmed(l: seq<AC>, rl: seq<ACR>, r: ACR, c: ACR) {
    exists plan, visited, vols :: ConfirmedBy(l, rl, r, c, plan, visited, vols)
  }

  lemma ConfirmationIs(sequential: bool, l: seq<AC>, rl: seq<ACR>, r: ACR, d: Decision)
    requires Decides(sequential, l, rl, r, d) && d.Confirm?
    ensures Confirmed(l, rl, r, d.acr) && r.status.Requested?
    ensures sequential ==> !LVGCapacityReserved(VolumesOf(r.requests), rl)
  {
  }

  lemma ConfirmationKeepsRequests(l: seq<AC>, rl: seq<ACR>, r: ACR, c: ACR)
    requires Confirmed(l, rl, r, c) && UniqueRequests(r.requests)
    ensures c == r.(status := Reserved, reserved := c.reserved, requests := c.requests)
    ensures |c.requests| == |r.requests| && forall i :: 0 <= i < |r.requests| ==> c.requests[i].cap == r.requests[i].cap
    ensures UniqueRequests(c.requests)
    ensures c.reserved != [] && forall n :: n in c.reserved ==> n in r.requested
  {
    hide Planned, VolSorted, SharedByName;
    var plan, visited, vols :| ConfirmedBy(l, rl, r, c, plan, visited, vols);
    forall i | 0 <= i < |r.requests| ensures c.requests[i].cap == r.requests[i].cap {
      assert Filled(plan, visited, vols, r.requests[i], c.requests[i]);
    }
  }

  lemma ConfirmationInside(l: seq<AC>, rl: seq<ACR>, r: ACR, c: ACR, i: nat, j: nat, a: string)
    requires Confirmed(l, rl, r, c) && UniqueRequests(r.requests) && UniqueNames(l)
    requires |c.requests| == |r.requests| && i < |r.requests| && j < |r.requests| && i != j
    requires a in c.requests[i].reservations && a in c.requests[j].reservations
    ensures IsLVG(r.requests[i].cap.sc) && IsLVG(r.requests[j].cap.sc)
  {
    hide ConfirmedBy;
    var plan, visited, vols :| ConfirmedBy(l, rl, r, c, plan, visited, vols);
    ConfirmedInside(l, rl, r, c, plan, visited, vols, i, j, a);
  }

  lemma ConfirmationAgainst(l: seq<AC>, rl: seq<ACR>, r: ACR, c: ACR, i: nat, k: int, m: int, a: string)
    requires Confirmed(l, rl, r, c) && UniqueRequests(r.requests) && ExclusiveList(rl)
    requires |c.requests| == |r.requests| && i < |r.requests| && a in c.requests[i].reservations
    requires NamesAt(rl, k, m, a)
    ensures IsLVG(r.requests[i].cap.sc) && IsLVG(rl[k].requests[m].cap.sc)
  {
    hide ConfirmedBy, ExclusiveList, ConfirmedRequests, FirstClass;
    FirstClassSpeaksForAll(rl, k, m, a);
    var plan, visited, vols :| ConfirmedBy(l, rl, r, c, plan, visited, vols);
    ConfirmedAgainstEarlier(l, rl, r, c, plan, visited, vols, i, a);
  }

  /** A promise made earlier and still standing is in the list the plan was made from. */
  lemma StandingPromise(rl: seq<ACR>, acrs: map<string, ACR>, q: string, j: int, a: string) returns (k: int, m: int)
    requires Dominates(rl, acrs) && Names(acrs, q, j, a)
    ensures NamesAt(rl, k, m, a) && rl[k].requests[m].cap.sc == ClassOf(acrs, q, j)
  {
    k, m :| 0 <= k < |rl| && rl[k].name == q && rl[k].status.Reserved? && 0 <= m < |rl[k].requests|
            && rl[k].requests[m] == acrs[q].requests[j];
  }

  lemma ConfirmKeepsExclusive(l: seq<AC>, rl: seq<ACR>, r: ACR, c: ACR, acrs: map<string, ACR>)
    requires Confirmed(l, rl, r, c) && UniqueRequests(r.requests) && UniqueNames(l) && ExclusiveList(rl)
    requires Dominates(rl, acrs) && Exclusive(acrs)
    ensures Exclusive(acrs[r.name := c])
  {
    hide Confirmed, Exclusive, ExclusiveList, Dominates, UniqueNames;
    ConfirmationKeepsRequests(l, rl, r, c);
    var y := acrs[r.name := c];
    forall p, q, i, j, a | Names(y, p, i, a) && Names(y, q, j, a) && (p != q || i != j)
      ensures IsLVG(ClassOf(y, p, i)) && IsLVG(ClassOf(y, q, j))
    {
      if p == r.name && q == r.name {
        ConfirmationInside(l, rl, r, c, i, j, a);
      } else if p == r.name {
        var k, m := StandingPromise(rl, acrs, q, j, a);
        ConfirmationAgainst(l, rl, r, c, i, k, m, a);
      } else if q == r.name {
        var k, m := StandingPromise(rl, acrs, p, i, a);
        ConfirmationAgainst(l, rl, r, c, j, k, m, a);
      } else {
        StaysExclusive(acrs, p, q, i, j, a);
      }
    }
    ExclusiveFromPairs(y);
  }

  lemma StaysExclusive(acrs: map<string, ACR>, p: string, q: string, i: int, j: int, a: string)
    requires Exclusive(acrs) && Names(acrs, p, i, a) && Names(acrs, q, j, a) && (p != q || i != j)
    ensures IsLVG(ClassOf(acrs, p, i)) && IsLVG(ClassOf(acrs, q, j))
  {
  }

  lemma ExclusiveFromPairs(acrs: map<string, ACR>)
    requires forall p, q, i, j, a :: Names(acrs, p, i, a) && Names(acrs, q, j, a) && (p != q || i != j) ==>
               IsLVG(ClassOf(acrs, p, i)) && IsLVG(ClassOf(acrs, q, j))
    ensures Exclusive(acrs)
  {
  }

  lemma ConfirmKeepsSequential(rl: seq<ACR>, r: ACR, c: ACR, acrs: map<string, ACR>)
    requires !LVGCapacityReserved(VolumesOf(r.requests), rl) && Dominates(rl, acrs) && Sequential(acrs)
    requires |c.requests| == |r.requests| && forall i :: 0 <= i < |r.requests| ==> c.requests[i].cap == r.requests[i].cap
    ensures Sequential(acrs[r.name := c])
  {
    var y := acrs[r.name := c];
    forall q, i, j | q in acrs && q != r.name && acrs[q].status.Reserved?
                     && 0 <= i < |r.requests| && 0 <= j < |acrs[q].requests| && IsLVG(r.requests[i].cap.sc)
      ensures r.requests[i].cap.sc != ClassOf(acrs, q, j)
    {
      NotReservedThen(rl, r, acrs, q, i, j);
    }
    hide LVGCapacityReserved, Dominates, VolumesOf;
    forall p, q, i, j | p in y && q in y && p != q && y[p].status.Reserved? && y[q].status.Reserved?
                        && 0 <= i < |y[p].requests| && 0 <= j < |y[q].requests| && IsLVG(ClassOf(y, p, i))
      ensures ClassOf(y, p, i) != ClassOf(y, q, j)
    {
      if p == r.name {
        assert r.requests[i].cap.sc != ClassOf(acrs, q, j);
      } else if q == r.name {
        assert IsLVG(r.requests[j].cap.sc) ==> r.requests[j].cap.sc != ClassOf(acrs, p, i);
      } else {
        assert ClassOf(acrs, p, i) != ClassOf(acrs, q, j);
      }
    }
  }

  lemma NotReservedThen(rl: seq<ACR>, r: ACR, acrs: map<string, ACR>, q: string, i: int, j: int)
    requires !LVGCapacityReserved(VolumesOf(r.requests), rl) && Dominates(rl, acrs)
    requires q in acrs && acrs[q].status.Reserved? && 0 <= i < |r.requests| && 0 <= j < |acrs[q].requests|
    requires IsLVG(r.requests[i].cap.sc)
    ensures r.requests[i].cap.sc != ClassOf(acrs, q, j)
  {
    assert Known(rl, q, acrs[q].requests[j]);
    var k, m :| 0 <= k < |rl| && rl[k].name == q && rl[k].status.Reserved? && 0 <= m < |rl[k].requests|
                && rl[k].requests[m] == acrs[q].requests[j];
    var v := VolumesOf(r.requests)[i];
    assert rl[k].requests[m] in rl[k].requests && v in VolumesOf(r.requests) && v.req.sc == r.requests[i].cap.sc;
  }

  lemma ConfirmKeepsHandOff(home: map<string, string>, l: seq<AC>, rl: seq<ACR>, r: ACR, c: ACR, i: nat, n: string)
    requires Confirmed(l, rl, r, c) && UniqueRequests(r.requests) && ListAtHome(home, l)
    requires |c.requests| == |r.requests| && i < |r.requests| && n in c.reserved
    ensures OneOn(home, c.requests[i].reservations, n)
  {
    hide ConfirmedBy, Suits;
    var plan, visited, vols :| ConfirmedBy(l, rl, r, c, plan, visited, vols);
    ConfirmNamesOneACPerNode(l, rl, r, c, plan, visited, vols);
    var names := c.requests[i].reservations;
    forall j | 0 <= j < |names| ensures OnNode(l, names[j], n) <==> LivesOn(home, names[j], n) {
      var m, x := NamedACSuits(l, rl, r, c, plan, visited, vols, i, names[j]);
      SuitsHome(home, l, x, names[j], m, r.requests[i].cap, n);
    }
    var k :| 0 <= k < |names| && OnNode(l, names[k], n) && forall j :: 0 <= j < |names| && OnNode(l, names[j], n) ==> j == k;
    assert LivesOn(home, names[k], n);
  }

  lemma SuitsHome(home: map<string, string>, l: seq<AC>, x: AC, a: string, m: string, r: CapacityRequest, n: string)
    requires ListAtHome(home, l) && x in l && Suits(x, a, m, r)
    ensures OnNode(l, a, n) <==> LivesOn(home, a, n)
  {
    assert x.name == a && x.nodeId == m;
    hide UniqueNames;
    if OnNode(l, a, n) {
      var y :| y in l && y.name == a && y.nodeId == n;
    }
  }

  lemma WriteIs(sequential: bool, w: World, d: Decision, t: World)
    requires Next(sequential, w, Writes(d), t) && d.Confirm?
    ensures w.worker.Ready? && Decides(sequential, w.worker.capacity, w.worker.reservations, w.worker.target, d)
    ensures var r := w.worker.target;
            t == w.(worker := Idle, acrs := if r.name in w.acrs && w.acrs[r.name] == r then w.acrs[r.name := d.acr] else w.acrs)
  {
    hide Decides;
  }

  lemma ConfirmKeepsInv(sequential: bool, w: World, d: Decision, t: World)
    requires Inv(sequential, w) && Next(sequential, w, Writes(d), t) && d.Confirm?
    ensures Inv(sequential, t)
  {
    hide Next, Exclusive, HandedOff, Sequential, Decides, Confirmed, ExclusiveList, Dominates, LVGCapacityReserved, VolumesOf;
    hide AtHome, ListAtHome, FlightKnows;
    WriteIs(sequential, w, d, t);
    var r, l, rl := w.worker.target, w.worker.capacity, w.worker.reservations;
    ConfirmationIs(sequential, l, rl, r, d);
    ConfirmationKeepsRequests(l, rl, r, d.acr);
    if r.name in w.acrs && w.acrs[r.name] == r {
      HasUniqueNames(w.home, l);
      ConfirmKeepsExclusive(l, rl, r, d.acr, w.acrs);
      if sequential { ConfirmKeepsSequential(rl, r, d.acr, w.acrs); }
      ConfirmHandsOff(w.home, l, rl, r, d.acr, w.acrs);
    }
  }

  lemma HasUniqueNames(home: map<string, string>, l: seq<AC>)
    requires ListAtHome(home, l)
    ensures UniqueNames(l)
  {
  }

  lemma ConfirmHandsOff(home: map<string, string>, l: seq<AC>, rl: seq<ACR>, r: ACR, c: ACR, acrs: map<string, ACR>)
    requires Confirmed(l, rl, r, c) && UniqueRequests(r.requests) && ListAtHome(home, l) && HandedOff(home, acrs)
    ensures HandedOff(home, acrs[r.name := c])
  {
    hide Confirmed, OneOn, ListAtHome;
    ConfirmationKeepsRequests(l, rl, r, c);
    forall i, n | 0 <= i < |c.requests| && n in c.reserved ensures OneOn(home, c.requests[i].reservations, n) {
      ConfirmKeepsHandOff(home, l, rl, r, c, i, n);
    }
  }

  // ---- every run ----

  lemma StepKeepsInv(sequential: bool, w: World, e: Event, t: World)
    requires Inv(sequential, w) && Next(sequential, w, e, t)
    ensures Inv(sequential, t)
  {
    hide Inv, Next;
    if e.Writes? && e.d.Confirm? {
      ConfirmKeepsInv(sequential, w, e.d, t);
    } else {
      QuietStepKeepsInv(sequential, w, e, t);
    }
  }

  /** Before the first reservation. */
  ghost predicate Initial(w: World) {
    w.acrs == map[] && w.users == map[] && w.worker.Idle? && w.flight.None? && AtHome(w.home, w.acs)
  }

  ghost predicate Run(sequential: bool, ws: seq<World>, es: seq<Event>) {
    |ws| == |es| + 1 && Initial(ws[0]) && forall k :: 0 <= k < |es| ==> Next(sequential, ws[k], es[k], ws[k + 1])
  }

  lemma {:induction false} RunKeepsInv(sequential: bool, ws: seq<World>, es: seq<Event>, k: nat)
    requires Run(sequential, ws, es) && k < |ws|
    ensures Inv(sequential, ws[k])
  {
    if k > 0 {
      RunKeepsInv(sequential, ws, es, k - 1);
      assert Next(sequential, ws[k - 1], es[k - 1], ws[k]);
      hide Inv, Next;
      StepKeepsInv(sequential, ws[k - 1], es[k - 1], ws[k]);
    }
  }

  /** Exclusivity in every reachable state: an AC named by a reserved drive request is named by no
      other reserved request, and an AC named twice is named by volume-group requests only. */
  lemma ReservationsAreExclusive(sequential: bool, ws: seq<World>, es: seq<Event>, k: nat, p: string, i: int, a: string)
    requires Run(sequential, ws, es) && k < |ws| && Names(ws[k].acrs, p, i, a)
    ensures !IsLVG(ClassOf(ws[k].acrs, p, i)) ==> forall q, j :: Names(ws[k].acrs, q, j, a) ==> q == p && j == i
    ensures forall q, j :: Names(ws[k].acrs, q, j, a) && (q != p || j != i) ==>
              IsLVG(ClassOf(ws[k].acrs, p, i)) && IsLVG(ClassOf(ws[k].acrs, q, j))
  {
    RunKeepsInv(sequential, ws, es, k);
  }

  /** With sequentialLVGReservation on, two reserved ACRs never ask for the same volume-group class. */
  lemma LVGClassesAreSeparate(ws: seq<World>, es: seq<Event>, k: nat, p: string, q: string)
    requires Run(true, ws, es) && k < |ws| && p != q
    requires p in ws[k].acrs && q in ws[k].acrs && ws[k].acrs[p].status.Reserved? && ws[k].acrs[q].status.Reserved?
    ensures forall i, j :: 0 <= i < |ws[k].acrs[p].requests| && 0 <= j < |ws[k].acrs[q].requests| && IsLVG(ClassOf(ws[k].acrs, p, i)) ==>
              ClassOf(ws[k].acrs, p, i) != ClassOf(ws[k].acrs, q, j)
  {
    RunKeepsInv(true, ws, es, k);
  }

  // ---- hand-off to CreateVolume ----

  lemma {:induction false} FindStops(acs: map<string, AC>, names: seq<string>, n: string, k: nat)
    requires k < |names|
    requires forall j :: 0 <= j < k && names[j] in acs ==> acs[names[j]].nodeId != n
    requires names[k] in acs ==> acs[names[k]].nodeId == n
    ensures FindCapacity(acs, names, n) == Found(names[k]) <==> forall j :: 0 <= j <= k ==> names[j] in acs
  {
    if k > 0 && names[0] in acs {
      FindStops(acs, names[1..], n, k - 1);
      assert (forall j :: 0 <= j <= k ==> names[j] in acs) <==> (forall j :: 0 <= j <= k - 1 ==> names[1..][j] in acs) by {
        assert forall j :: 1 <= j <= k ==> names[j] == names[1..][j - 1];
      }
    }
  }

  /** For every node the extender returns as matched, CreateVolume's search answers with the one AC the
      request names on that node, exactly as long as the ACs it passes on the way exist. */
  lemma MatchedNodeHasItsAC(sequential: bool, ws: seq<World>, es: seq<Event>, at: nat, p: string, i: nat,
                            nodes: seq<KubeNode>, node: KubeNode) returns (k: nat)
    requires Run(sequential, ws, es) && at < |ws| && p in ws[at].acrs && ws[at].acrs[p].status.Reserved?
    requires i < |ws[at].acrs[p].requests| && node in MatchedNodes(nodes, ws[at].acrs[p].reserved)
    ensures var names := ws[at].acrs[p].requests[i].reservations;
            && k < |names| && LivesOn(ws[at].home, names[k], node.id.value)
            && (FindCapacity(ws[at].acs, names, node.id.value) == Found(names[k]) <==>
                forall j :: 0 <= j <= k ==> names[j] in ws[at].acs)
  {
    RunKeepsInv(sequential, ws, es, at);
    hide Exclusive, Sequential, WorkerKnows, Run;
    var w, names, n := ws[at], ws[at].acrs[p].requests[i].reservations, node.id.value;
    assert OneOn(w.home, names, n);
    k :| 0 <= k < |names| && LivesOn(w.home, names[k], n) && forall j :: 0 <= j < |names| && LivesOn(w.home, names[j], n) ==> j == k;
    FindStops(w.acs, names, n, k);
  }
}
