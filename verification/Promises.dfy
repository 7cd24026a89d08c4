// What becomes of a promise: a confirmed drive request names an AC, and until its volume is created the
// AC should stay a drive with room for it. When that fails, and only then, a volume creation wrote the AC at one
// of three kinds of moments.

module Promises {
  import opened Types
  import opened Accounting
  import opened Planner
  import opened Reservation
  import opened Confirmation
  import opened Stores
  import opened Protocol

  /** x is a drive of a class that r may use, with room for it. */
  predicate Holding(x: AC, r: CapacityRequest) {
    !IsLVG(x.sc) && Ordering.Compatible(r.sc, x.sc) && r.size <= x.size
  }

  /** The reserved ACR p promises AC a to a request cap. */
  ghost predicate Stands(acrs: map<string, ACR>, p: string, cap: CapacityRequest, a: string) {
    exists i :: Names(acrs, p, i, a) && acrs[p].requests[i].cap == cap
  }

  /** The ACR is still the one that the copy was read from. */
  predicate StillStands(acrs: map<string, ACR>, copy: ACR) {
    copy.name in acrs && acrs[copy.name] == copy
  }

  // ---- one pass of the worker ----

  predicate Works(e: Event) {
    e.Picks? || e.ReadsACs? || e.ReadsACRs? || e.Writes? || e.GivesUp?
  }

  /** Events ka, kr and k are the two reads and the write of one pass of the reservation worker. */
  ghost predicate Pass(es: seq<Event>, ka: nat, kr: nat, k: nat) {
    && ka < kr < k < |es| && es[ka].ReadsACs? && es[kr].ReadsACRs? && es[k].Writes?
    && forall t :: ka < t < k && t != kr ==> !Works(es[t])
  }

  lemma WorkerStep(sequential: bool, w: World, e: Event, t: World)
    requires Next(sequential, w, e, t)
    ensures !Works(e) ==> t.worker == w.worker
    ensures e.Picks? ==> t.worker.Picked?
    ensures e.ReadsACs? ==> Lists(e.list, w.acs) && w.worker.Picked? && t.worker == HasACs(w.worker.target, e.list)
    ensures e.ReadsACRs? ==> Lists(e.acrList, w.acrs) && w.worker.HasACs?
                             && t.worker == Ready(w.worker.target, w.worker.capacity, e.acrList)
    ensures e.Writes? || e.GivesUp? ==> t.worker.Idle?
    ensures e.Writes? ==> w.worker.Ready?
  {
    hide Decides, Lists, Frees, MayPlace, MayRead, MayWrite, AfterRelease;
  }

  /** The last step that the worker made before state k. */
  lemma {:induction false} LastWork(sequential: bool, ws: seq<World>, es: seq<Event>, k: nat) returns (t: nat)
    requires Run(sequential, ws, es) && k < |ws| && !ws[k].worker.Idle?
    ensures t < k && Works(es[t]) && ws[t + 1].worker == ws[k].worker && forall i :: t < i < k ==> !Works(es[i])
  {
    hide Next;
    WorkerStep(sequential, ws[k - 1], es[k - 1], ws[k]);
    if Works(es[k - 1]) {
      t := k - 1;
    } else {
      t := LastWork(sequential, ws, es, k - 1);
    }
  }

  lemma PassExists(sequential: bool, ws: seq<World>, es: seq<Event>, k: nat) returns (ka: nat, kr: nat)
    requires Run(sequential, ws, es) && k < |es| && es[k].Writes?
    ensures Pass(es, ka, kr, k)
  {
    hide Next;
    WorkerStep(sequential, ws[k], es[k], ws[k + 1]);
    kr := LastWork(sequential, ws, es, k);
    WorkerStep(sequential, ws[kr], es[kr], ws[kr + 1]);
    ka := LastWork(sequential, ws, es, kr);
    WorkerStep(sequential, ws[ka], es[ka], ws[ka + 1]);
  }

  lemma {:induction false} WorkerBetween(sequential: bool, ws: seq<World>, es: seq<Event>, i: nat, j: nat)
    requires Run(sequential, ws, es) && i <= j < |ws| && forall t :: i <= t < j ==> !Works(es[t])
    ensures ws[j].worker == ws[i].worker
  {
    hide Next;
    if i < j {
      WorkerBetween(sequential, ws, es, i, j - 1);
      WorkerStep(sequential, ws[j - 1], es[j - 1], ws[j]);
    }
  }

  /** What the worker holds after each of its reads. */
  lemma PassHolds(sequential: bool, ws: seq<World>, es: seq<Event>, ka: nat, kr: nat, k: nat)
    requires Run(sequential, ws, es) && Pass(es, ka, kr, k)
    ensures Lists(es[ka].list, ws[ka].acs) && Lists(es[kr].acrList, ws[kr].acrs)
    ensures forall t :: ka < t <= kr ==> ws[t].worker.HasACs?
    ensures forall t :: kr < t <= k ==>
              && ws[t].worker == ws[k].worker && ws[t].worker.Ready?
              && ws[t].worker.capacity == es[ka].list && ws[t].worker.reservations == es[kr].acrList
  {
    hide Next;
    WorkerStep(sequential, ws[ka], es[ka], ws[ka + 1]);
    WorkerStep(sequential, ws[kr], es[kr], ws[kr + 1]);
    forall t | ka < t <= kr ensures ws[t].worker == ws[ka + 1].worker { WorkerBetween(sequential, ws, es, ka + 1, t); }
    forall t | kr < t <= k ensures ws[t].worker == ws[kr + 1].worker { WorkerBetween(sequential, ws, es, kr + 1, t); }
  }

  // ---- where a promise comes from ----

  /** A promise of AC a to request cap of ACR p, written at step k by the worker that read the ACs at ka and the
      ACRs at kr. */
  datatype Promise = Promise(ka: nat, kr: nat, k: nat, p: string, cap: CapacityRequest, a: string)

  /** The promise was made in this run. */
  ghost predicate Made(ws: seq<World>, es: seq<Event>, pr: Promise) {
    && |ws| == |es| + 1 && Pass(es, pr.ka, pr.kr, pr.k) && es[pr.k].d.Confirm? && ws[pr.k].worker.Ready?
    && ws[pr.k].worker.target.name == pr.p && StillStands(ws[pr.k].acrs, ws[pr.k].worker.target)
    && exists i :: PromisesTo(ws[pr.k].worker.target, es[pr.k].d.acr, i, pr.cap, pr.a)
  }

  /** The confirmation c of ACR r names a for request i. */
  predicate PromisesTo(r: ACR, c: ACR, i: nat, cap: CapacityRequest, a: string) {
    i < |r.requests| && i < |c.requests| && r.requests[i].cap == cap && c.requests[i].cap == cap && a in c.requests[i].reservations
  }

  ghost predicate StandsThrough(ws: seq<World>, pr: Promise, m: nat)
    requires m < |ws|
  {
    forall t :: pr.k < t <= m ==> Stands(ws[t].acrs, pr.p, pr.cap, pr.a)
  }

  /** A promise that stands after a step and did not before was written by that step. */
  lemma PromiseAppears(sequential: bool, w: World, e: Event, t: World, p: string, cap: CapacityRequest, a: string)
    requires Inv(sequential, w) && Next(sequential, w, e, t)
    requires Stands(t.acrs, p, cap, a) && !Stands(w.acrs, p, cap, a)
    ensures e.Writes? && e.d.Confirm? && w.worker.Ready? && w.worker.target.name == p && StillStands(w.acrs, w.worker.target)
    ensures exists i :: PromisesTo(w.worker.target, e.d.acr, i, cap, a)
  {
    hide Next, Exclusive, HandedOff, Sequential, Decides, Confirmed, ExclusiveList, Dominates, LVGCapacityReserved, VolumesOf;
    var i :| Names(t.acrs, p, i, a) && t.acrs[p].requests[i].cap == cap;
    if e.Writes? && e.d.Confirm? {
      WriteIs(sequential, w, e.d, t);
      var r := w.worker.target;
      ConfirmationIs(sequential, w.worker.capacity, w.worker.reservations, r, e.d);
      ConfirmationKeepsRequests(w.worker.capacity, w.worker.reservations, r, e.d.acr);
      assert p != r.name || t.acrs == w.acrs ==> Names(w.acrs, p, i, a);
      assert PromisesTo(r, e.d.acr, i, cap, a);
    } else {
      StepIsFewer(sequential, w, e, t);
      NamedBefore(w.acrs, t.acrs, p, i, a);
      assert false;
    }
  }

  lemma NamedBefore(x: map<string, ACR>, y: map<string, ACR>, q: string, j: int, a: string)
    requires Fewer(x, y) && Names(y, q, j, a)
    ensures exists i :: Names(x, q, i, a) && x[q].requests[i].cap == y[q].requests[j].cap
  {
    var i := Source(x, y, q, j);
    assert Names(x, q, i, a);
  }

  /** Every promise that stands was made by one pass of the worker and has stood since. */
  lemma {:induction false} EveryPromiseWasMade(sequential: bool, ws: seq<World>, es: seq<Event>, m: nat,
                                               p: string, cap: CapacityRequest, a: string) returns (pr: Promise)
    requires Run(sequential, ws, es) && m < |ws| && Stands(ws[m].acrs, p, cap, a)
    ensures Made(ws, es, pr) && pr.p == p && pr.cap == cap && pr.a == a && pr.k < m && StandsThrough(ws, pr, m)
  {
    hide Next, Inv, Pass, Stands;
    NothingStandsAtFirst(sequential, ws, es, p, cap, a);
    if Stands(ws[m - 1].acrs, p, cap, a) {
      pr := EveryPromiseWasMade(sequential, ws, es, m - 1, p, cap, a);
    } else {
      RunKeepsInv(sequential, ws, es, m - 1);
      PromiseAppears(sequential, ws[m - 1], es[m - 1], ws[m], p, cap, a);
      var ka, kr := PassExists(sequential, ws, es, m - 1);
      pr := Promise(ka, kr, m - 1, p, cap, a);
    }
  }

  lemma NothingStandsAtFirst(sequential: bool, ws: seq<World>, es: seq<Event>, p: string, cap: CapacityRequest, a: string)
    requires Run(sequential, ws, es)
    ensures !Stands(ws[0].acrs, p, cap, a)
  {
    hide Next;
  }

  // ---- what steps do to an AC ----

  /** A volume creation writes AC a. */
  predicate WritesAC(w: World, e: Event, a: string) {
    (e.Takes? || e.Converts?) && w.flight.Some? && w.flight.value.ac.Some? && w.flight.value.ac.value.name == a
  }

  /** A deletion or a size update leaves AC a with room for cap. */
  predicate GivesBack(e: Event, a: string, cap: CapacityRequest) {
    e.CapacityChanges? && a in e.acs && Holding(e.acs[a], cap)
  }

  lemma StepOnAC(sequential: bool, w: World, e: Event, t: World, a: string, cap: CapacityRequest)
    requires AtHome(w.home, w.acs) && Next(sequential, w, e, t) && a in t.acs
    ensures a in w.acs
    ensures Holding(w.acs[a], cap) && !Holding(t.acs[a], cap) ==> WritesAC(w, e, a)
    ensures WritesAC(w, e, a) && cap.size > 0 ==> !Holding(t.acs[a], cap)
    ensures !Holding(w.acs[a], cap) && cap.size > 0 && !GivesBack(e, a, cap) ==> !Holding(t.acs[a], cap)
  {
    hide Next;
    ACsAfter(sequential, w, e, t);
  }

  lemma {:induction false} ACsOnlyGo(sequential: bool, ws: seq<World>, es: seq<Event>, i: nat, m: nat, a: string)
    requires Run(sequential, ws, es) && i <= m < |ws| && a in ws[m].acs
    ensures a in ws[i].acs
  {
    hide Next, Inv;
    if i < m {
      RunKeepsInv(sequential, ws, es, m - 1);
      StepHomes(sequential, ws, m - 1);
      StepOnAC(sequential, ws[m - 1], es[m - 1], ws[m], a, CapacityRequest("", 0, Any, ""));
      ACsOnlyGo(sequential, ws, es, i, m - 1, a);
    }
  }

  lemma StepHomes(sequential: bool, ws: seq<World>, k: nat)
    requires k < |ws| && Inv(sequential, ws[k])
    ensures AtHome(ws[k].home, ws[k].acs)
  {
  }

  ghost predicate Broken(w: World, a: string, cap: CapacityRequest) {
    a in w.acs && !Holding(w.acs[a], cap)
  }

  /** Between a state in which AC a has room and one in which it has not, there is a last write of a by a creation,
      after which nothing gives the room back. */
  lemma {:induction false} LastBreak(sequential: bool, ws: seq<World>, es: seq<Event>, s: nat, m: nat,
                                     a: string, cap: CapacityRequest) returns (j: nat)
    requires Run(sequential, ws, es) && s <= m < |ws| && a in ws[m].acs && cap.size > 0
    requires !Broken(ws[s], a, cap) && Broken(ws[m], a, cap)
    ensures s <= j < m && WritesAC(ws[j], es[j], a) && forall t :: j < t < m ==> !GivesBack(es[t], a, cap)
  {
    hide Next, Inv, Holding;
    ACsOnlyGo(sequential, ws, es, m - 1, m, a);
    RunKeepsInv(sequential, ws, es, m - 1);
    StepHomes(sequential, ws, m - 1);
    StepOnAC(sequential, ws[m - 1], es[m - 1], ws[m], a, cap);
    if Broken(ws[m - 1], a, cap) {
      j := LastBreak(sequential, ws, es, s, m - 1, a, cap);
      if GivesBack(es[m - 1], a, cap) { GivenBackHolds(sequential, ws[m - 1], es[m - 1], ws[m], a, cap); }
    } else {
      j := m - 1;
    }
  }

  lemma GivenBackHolds(sequential: bool, w: World, e: Event, t: World, a: string, cap: CapacityRequest)
    requires Next(sequential, w, e, t) && GivesBack(e, a, cap)
    ensures a in t.acs && Holding(t.acs[a], cap)
  {
  }

  /** Once a creation has written AC a, it has no room for cap until something gives it back. */
  lemma {:induction false} StaysBroken(sequential: bool, ws: seq<World>, es: seq<Event>, j: nat, m: nat,
                                       a: string, cap: CapacityRequest)
    requires Run(sequential, ws, es) && j < m < |ws| && a in ws[m].acs && cap.size > 0
    requires WritesAC(ws[j], es[j], a) && forall t :: j < t < m ==> !GivesBack(es[t], a, cap)
    ensures Broken(ws[m], a, cap)
  {
    hide Next, Inv, Holding, WritesAC, GivesBack;
    RunKeepsInv(sequential, ws, es, m - 1);
    StepHomes(sequential, ws, m - 1);
    StepOnAC(sequential, ws[m - 1], es[m - 1], ws[m], a, cap);
    if j < m - 1 { StaysBroken(sequential, ws, es, j, m - 1, a, cap); }
  }

  // ---- whose write it was ----

  ghost predicate SameCall(f: Option<Flight>, g: Option<Flight>) {
    f.Some? && g.Some? && f.value.acr == g.value.acr && f.value.num == g.value.num && f.value.node == g.value.node
  }

  /** The call under way in state j read its ACR at step b. */
  ghost predicate Aloft(ws: seq<World>, es: seq<Event>, b: nat, j: nat) {
    && b < j < |ws| && j <= |es| && es[b].Begins?
    && forall t :: b < t <= j ==> SameCall(ws[t].flight, ws[j].flight)
  }

  lemma FlightStep(sequential: bool, w: World, e: Event, t: World)
    requires Next(sequential, w, e, t) && t.flight.Some?
    ensures if e.Begins? then StillStandsIn(w.acrs, e.consumed, t.flight.value.acr) else SameCall(w.flight, t.flight)
  {
    hide Decides, Lists, Frees, AfterRelease;
  }

  predicate StillStandsIn(acrs: map<string, ACR>, name: string, copy: ACR) {
    name in acrs && acrs[name] == copy
  }

  lemma {:induction false} CallBegan(sequential: bool, ws: seq<World>, es: seq<Event>, j: nat) returns (b: nat)
    requires Run(sequential, ws, es) && j < |ws| && ws[j].flight.Some?
    ensures Aloft(ws, es, b, j) && StillStands(ws[b].acrs, ws[j].flight.value.acr)
  {
    hide Next, Inv;
    FlightStep(sequential, ws[j - 1], es[j - 1], ws[j]);
    if es[j - 1].Begins? {
      b := j - 1;
      RunKeepsInv(sequential, ws, es, b);
      ReadUnderItsName(sequential, ws[b], es[b].consumed);
    } else {
      b := CallBegan(sequential, ws, es, j - 1);
    }
  }

  lemma ReadUnderItsName(sequential: bool, w: World, n: string)
    requires Inv(sequential, w) && n in w.acrs
    ensures w.acrs[n].name == n
  {
  }

  /** The call that writes at step j read its ACR before the worker listed the ACRs at kr, and that ACR was resent,
      rewritten or deleted by then. */
  ghost predicate Outdated(ws: seq<World>, es: seq<Event>, kr: nat, j: nat) {
    && kr < j < |ws| && ws[j].flight.Some? && !StillStands(ws[kr].acrs, ws[j].flight.value.acr)
    && exists b: nat :: b < kr && Aloft(ws, es, b, j)
  }

  /** The call that writes at step j is the creation of the promised volume itself, begun after the promise. */
  ghost predicate OwnCreation(ws: seq<World>, es: seq<Event>, pr: Promise, j: nat) {
    && pr.k < j < |ws| && ws[j].flight.Some? && ws[j].flight.value.acr.name == pr.p
    && ws[j].flight.value.num < |ws[j].flight.value.acr.requests|
    && ws[j].flight.value.acr.requests[ws[j].flight.value.num].cap == pr.cap
    && exists b: nat :: pr.k < b && Aloft(ws, es, b, j)
  }

  /** An AC that the listed ACRs name already is promised to a volume-group request only, and only if it is named
      for one. */
  lemma NamedThen(l: seq<AC>, rl: seq<ACR>, r: ACR, c: ACR, i: nat, acrs: map<string, ACR>, q: string, n: int, a: string)
    requires Confirmed(l, rl, r, c) && UniqueRequests(r.requests) && ExclusiveList(rl) && Dominates(rl, acrs)
    requires |c.requests| == |r.requests| && i < |r.requests| && PromisesTo(r, c, i, r.requests[i].cap, a)
    requires Names(acrs, q, n, a)
    ensures IsLVG(r.requests[i].cap.sc) && IsLVG(ClassOf(acrs, q, n))
  {
    hide Confirmed, ExclusiveList, Dominates;
    var k, m := StandingPromise(rl, acrs, q, n, a);
    ConfirmationAgainst(l, rl, r, c, i, k, m, a);
  }

  /** The same for every request that names the AC from the moment the ACRs are read to the write. */
  lemma NamedDuringPass(sequential: bool, ws: seq<World>, es: seq<Event>, pr: Promise, t: nat, q: string, n: int)
    requires Run(sequential, ws, es) && Made(ws, es, pr) && pr.kr <= t <= pr.k
    requires Names(ws[t].acrs, q, n, pr.a)
    ensures IsLVG(pr.cap.sc) && IsLVG(ClassOf(ws[t].acrs, q, n))
  {
    hide Next, Pass, Exclusive, HandedOff, Sequential, Decides, Confirmed, ExclusiveList, Dominates, LVGCapacityReserved, VolumesOf;
    hide Lists, UniqueRequests, ListAtHome, PromisesTo, WellFormed, AtHome, FlightKnows;
    assert pr.ka < pr.kr < pr.k < |es| && es[pr.kr].ReadsACRs? && es[pr.ka].ReadsACs? && es[pr.k].Writes? by {
      PassIs(es, pr.ka, pr.kr, pr.k);
    }
    PassHolds(sequential, ws, es, pr.ka, pr.kr, pr.k);
    RunKeepsInv(sequential, ws, es, pr.k);
    RunKeepsInv(sequential, ws, es, t);
    var w := ws[pr.k];
    var r, c, l, rl := w.worker.target, es[pr.k].d.acr, w.worker.capacity, w.worker.reservations;
    var i :| PromisesTo(r, c, i, pr.cap, pr.a);
    WritesConfirmation(sequential, ws[pr.k], es[pr.k].d, ws[pr.k + 1]);
    if t == pr.kr { ListedDominates(rl, ws[t].acrs); }
    PromisesToIs(r, c, i, pr.cap, pr.a);
    NamedThen(l, rl, r, c, i, ws[t].acrs, q, n, pr.a);
  }

  lemma PassIs(es: seq<Event>, ka: nat, kr: nat, k: nat)
    requires Pass(es, ka, kr, k)
    ensures ka < kr < k < |es| && es[ka].ReadsACs? && es[kr].ReadsACRs? && es[k].Writes?
  {
  }

  lemma PromisesToIs(r: ACR, c: ACR, i: nat, cap: CapacityRequest, a: string)
    requires PromisesTo(r, c, i, cap, a)
    ensures i < |r.requests| && r.requests[i].cap == cap
  {
  }

  lemma WritesConfirmation(sequential: bool, w: World, d: Decision, t: World)
    requires Inv(sequential, w) && Next(sequential, w, Writes(d), t) && d.Confirm?
    ensures w.worker.Ready? && UniqueRequests(w.worker.target.requests) && ExclusiveList(w.worker.reservations)
    ensures Confirmed(w.worker.capacity, w.worker.reservations, w.worker.target, d.acr)
    ensures |d.acr.requests| == |w.worker.target.requests|
  {
    hide Next, Exclusive, HandedOff, Sequential, Decides, Confirmed, ExclusiveList, Dominates, LVGCapacityReserved, VolumesOf;
    WriteIs(sequential, w, d, t);
    ConfirmationIs(sequential, w.worker.capacity, w.worker.reservations, w.worker.target, d);
    ConfirmationKeepsRequests(w.worker.capacity, w.worker.reservations, w.worker.target, d.acr);
  }

  /** A creation that writes the promised AC after the worker listed the ACRs is outdated or the promise's own. */
  lemma LateWriter(sequential: bool, ws: seq<World>, es: seq<Event>, pr: Promise, m: nat, j: nat)
    requires Run(sequential, ws, es) && Made(ws, es, pr) && !IsLVG(pr.cap.sc)
    requires pr.kr < j < m < |ws| && StandsThrough(ws, pr, m) && WritesAC(ws[j], es[j], pr.a)
    ensures Outdated(ws, es, pr.kr, j) || OwnCreation(ws, es, pr, j)
  {
    hide Next, Made, Stands, Exclusive, HandedOff, Sequential, Names, WellFormed, AtHome, WorkerKnows;
    var f := ws[j].flight.value;
    RunKeepsInv(sequential, ws, es, j);
    var b := CallBegan(sequential, ws, es, j);
    var q := f.acr.name;
    assert Names(ws[b].acrs, q, f.num, pr.a) by { CopyNames(ws[b].acrs, f, pr.a); }
    assert es[pr.kr].ReadsACRs? && es[pr.k].Writes? && pr.k < |es| && pr.kr < pr.k by { MadeInPass(ws, es, pr); }
    if b < pr.kr {
      if StillStands(ws[pr.kr].acrs, f.acr) {
        CopyNames(ws[pr.kr].acrs, f, pr.a);
        NamedDuringPass(sequential, ws, es, pr, pr.kr, q, f.num);
        assert false;
      }
    } else if b <= pr.k {
      NamedDuringPass(sequential, ws, es, pr, b, q, f.num);
      assert false;
    } else {
      OnlyOwnNames(sequential, ws, es, pr, m, b, q, f.num);
    }
  }

  lemma MadeInPass(ws: seq<World>, es: seq<Event>, pr: Promise)
    requires Made(ws, es, pr)
    ensures pr.ka < pr.kr < pr.k < |es| && es[pr.ka].ReadsACs? && es[pr.kr].ReadsACRs? && es[pr.k].Writes?
  {
  }

  lemma CopyNames(acrs: map<string, ACR>, f: Flight, a: string)
    requires StillStands(acrs, f.acr) && FlightKnows(Some(f)) && f.ac.Some? && f.ac.value.name == a
    ensures Names(acrs, f.acr.name, f.num, a)
  {
  }

  lemma OnlyOwnNames(sequential: bool, ws: seq<World>, es: seq<Event>, pr: Promise, m: nat, b: nat, q: string, n: int)
    requires Run(sequential, ws, es) && m < |ws| && StandsThrough(ws, pr, m) && pr.k < b <= m
    requires Names(ws[b].acrs, q, n, pr.a) && (!IsLVG(pr.cap.sc) || !IsLVG(ClassOf(ws[b].acrs, q, n)))
    ensures q == pr.p && ws[b].acrs[q].requests[n].cap == pr.cap
  {
    hide Next;
    assert Stands(ws[b].acrs, pr.p, pr.cap, pr.a);
    var i :| Names(ws[b].acrs, pr.p, i, pr.a) && ws[b].acrs[pr.p].requests[i].cap == pr.cap;
    ReservationsAreExclusive(sequential, ws, es, b, pr.p, i, pr.a);
  }

  // ---- the exact condition ----

  /** Step j breaks the promise: a creation writes the AC between the worker's two reads, or later with an outdated
      ACR, or as the creation of the promised volume itself; and the room is not given back before state m. */
  ghost predicate Breaks(ws: seq<World>, es: seq<Event>, pr: Promise, m: nat, j: nat) {
    && pr.ka < j < m && j < |es| && m <= |es| && j < |ws| && WritesAC(ws[j], es[j], pr.a)
    && (forall t :: j < t < m ==> !GivesBack(es[t], pr.a, pr.cap))
    && (j < pr.kr || Outdated(ws, es, pr.kr, j) || OwnCreation(ws, es, pr, j))
  }

  /** When the worker read the ACs, the one it was to promise had room. */
  lemma HeldWhenRead(sequential: bool, ws: seq<World>, es: seq<Event>, pr: Promise)
    requires Run(sequential, ws, es) && Made(ws, es, pr)
    ensures pr.ka < |ws| && pr.a in ws[pr.ka].acs && Required(pr.cap) <= ws[pr.ka].acs[pr.a].size
    ensures !ws[pr.ka].acs[pr.a].tainted && LabelOf(ws[pr.ka].acs[pr.a].group) == pr.cap.group
    ensures !IsLVG(pr.cap.sc) ==> Holding(ws[pr.ka].acs[pr.a], pr.cap)
  {
    hide Next, Pass, Exclusive, HandedOff, Sequential, Decides, ExclusiveList, Dominates, LVGCapacityReserved, VolumesOf;
    hide Names, Lists, ListAtHome, UniqueRequests, Confirmed;
    assert pr.ka < pr.kr < pr.k < |es| && es[pr.kr].ReadsACRs? && es[pr.ka].ReadsACs? && es[pr.k].Writes? by { PassIs(es, pr.ka, pr.kr, pr.k); }
    PassHolds(sequential, ws, es, pr.ka, pr.kr, pr.k);
    RunKeepsInv(sequential, ws, es, pr.ka);
    RunKeepsInv(sequential, ws, es, pr.k);
    var r, c, l, rl := ws[pr.k].worker.target, es[pr.k].d.acr, ws[pr.k].worker.capacity, ws[pr.k].worker.reservations;
    var i :| PromisesTo(r, c, i, pr.cap, pr.a);
    WritesConfirmation(sequential, ws[pr.k], es[pr.k].d, ws[pr.k + 1]);
    var n, x := PromisedSuits(l, rl, r, c, i, pr.a);
    ListedIsThere(ws[pr.ka].home, ws[pr.ka].acs, l, x);
  }

  lemma PromisedSuits(l: seq<AC>, rl: seq<ACR>, r: ACR, c: ACR, i: nat, a: string) returns (n: string, x: AC)
    requires Confirmed(l, rl, r, c) && UniqueRequests(r.requests) && |c.requests| == |r.requests|
    requires i < |r.requests| && a in c.requests[i].reservations
    ensures x in l && Suits(x, a, n, r.requests[i].cap)
  {
    hide ConfirmedBy;
    var plan, visited, vols :| ConfirmedBy(l, rl, r, c, plan, visited, vols);
    n, x := NamedACSuits(l, rl, r, c, plan, visited, vols, i, a);
  }

  lemma ListedIsThere(home: map<string, string>, acs: map<string, AC>, l: seq<AC>, x: AC)
    requires AtHome(home, acs) && Lists(l, acs) && x in l
    ensures x.name in acs && acs[x.name] == x
  {
    var keys :| ListedBy(l, acs, keys);
    var i :| 0 <= i < |l| && l[i] == x;
    assert acs[keys[i]] == x;
  }

  /** Every promise of a drive that stands in a reachable state was made by a pass of the worker, and the AC it
      names has lost its room if and only if some step of the run breaks it. */
  lemma PromiseBreaksExactly(sequential: bool, ws: seq<World>, es: seq<Event>, m: nat,
                             p: string, cap: CapacityRequest, a: string) returns (pr: Promise)
    requires Run(sequential, ws, es) && m < |ws| && Stands(ws[m].acrs, p, cap, a)
    requires !IsLVG(cap.sc) && cap.size > 0 && a in ws[m].acs
    ensures Made(ws, es, pr) && pr.p == p && pr.cap == cap && pr.a == a && pr.k < m && StandsThrough(ws, pr, m)
    ensures !Holding(ws[m].acs[a], cap) <==> exists j :: Breaks(ws, es, pr, m, j)
  {
    hide Next, Inv, Holding, Made, WritesAC, GivesBack, Outdated, OwnCreation, Stands, StandsThrough;
    pr := EveryPromiseWasMade(sequential, ws, es, m, p, cap, a);
    MadeInPass(ws, es, pr);
    if !Holding(ws[m].acs[a], cap) {
      HeldWhenRead(sequential, ws, es, pr);
      var j := LastBreak(sequential, ws, es, pr.ka, m, a, cap);
      NotARead(ws, es, pr, j);
      if pr.kr < j { LateWriter(sequential, ws, es, pr, m, j); }
      assert Breaks(ws, es, pr, m, j);
    } else if j :| Breaks(ws, es, pr, m, j) {
      StaysBroken(sequential, ws, es, j, m, a, cap);
      assert false;
    }
  }

  lemma NotARead(ws: seq<World>, es: seq<Event>, pr: Promise, j: nat)
    requires Made(ws, es, pr) && j < |es| && j < |ws| && WritesAC(ws[j], es[j], pr.a)
    ensures j != pr.ka && j != pr.kr
  {
  }

  // ---- runs in which promises are kept ----

  /** No creation writes an AC between the worker's two reads, and none is under way with an ACR that has
      changed when the ACRs are read. */
  ghost predicate Undisturbed(ws: seq<World>, es: seq<Event>) {
    forall t :: 0 <= t < |es| && t < |ws| ==>
      && (ws[t].worker.HasACs? ==> !es[t].Takes? && !es[t].Converts?)
      && (es[t].ReadsACRs? && ws[t].flight.Some? ==> StillStands(ws[t].acrs, ws[t].flight.value.acr))
  }

  /** In every state of every undisturbed run, an AC promised to a drive request has room for it unless the
      volume of that very request has taken it. */
  lemma PromisesAreKept(sequential: bool, ws: seq<World>, es: seq<Event>, m: nat,
                        p: string, cap: CapacityRequest, a: string) returns (pr: Promise)
    requires Run(sequential, ws, es) && Undisturbed(ws, es) && m < |ws| && Stands(ws[m].acrs, p, cap, a)
    requires !IsLVG(cap.sc) && cap.size > 0 && a in ws[m].acs
    ensures Made(ws, es, pr) && pr.p == p && pr.cap == cap && pr.a == a && pr.k < m && StandsThrough(ws, pr, m)
    ensures Holding(ws[m].acs[a], cap) || exists j :: pr.k < j < m && WritesAC(ws[j], es[j], a) && OwnCreation(ws, es, pr, j)
  {
    hide Next, Inv, Holding, Made, WritesAC, GivesBack, Outdated, OwnCreation, Stands, StandsThrough, Undisturbed;
    pr := PromiseBreaksExactly(sequential, ws, es, m, p, cap, a);
    if !Holding(ws[m].acs[a], cap) {
      var j :| Breaks(ws, es, pr, m, j);
      BrokenByOwn(sequential, ws, es, pr, m, j);
    }
  }

  lemma BrokenByOwn(sequential: bool, ws: seq<World>, es: seq<Event>, pr: Promise, m: nat, j: nat)
    requires Run(sequential, ws, es) && Undisturbed(ws, es) && Made(ws, es, pr) && Breaks(ws, es, pr, m, j)
    ensures pr.k < j < m && WritesAC(ws[j], es[j], pr.a) && OwnCreation(ws, es, pr, j)
  {
    hide Next, Made, GivesBack, Pass;
    MadeInPass(ws, es, pr);
    if j < pr.kr {
      assert Pass(es, pr.ka, pr.kr, pr.k) by { IsPass(ws, es, pr); }
      PassHolds(sequential, ws, es, pr.ka, pr.kr, pr.k);
      assert false;
    } else if Outdated(ws, es, pr.kr, j) {
      assert false;
    }
  }

  lemma IsPass(ws: seq<World>, es: seq<Event>, pr: Promise)
    requires Made(ws, es, pr)
    ensures Pass(es, pr.ka, pr.kr, pr.k)
  {
  }
}
