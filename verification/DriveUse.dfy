// What the handshake is for: a drive is given to one volume. CreateVolume never looks at the size of the AC it takes
// (volume_operations.go:153-259), so this rests on the promises alone, and fails exactly where they do.

module DriveUse {
  import opened Types
  import opened Accounting
  import opened Planner
  import opened Reservation
  import opened Stores
  import opened Protocol
  import opened Promises

  // ---- what is wanted of a state ----

  /** No drive is taken by two volumes. */
  ghost predicate AtMostOne(w: World) {
    forall i, j, a :: a in w.acs && UsedBy(w.users, i, a) && UsedBy(w.users, j, a) ==> i == j
  }

  /** No drive that a volume takes has been made a volume group. */
  ghost predicate NoGroupOnUsed(w: World) {
    forall i, a :: a in w.acs && UsedBy(w.users, i, a) ==> !IsLVG(w.acs[a].sc)
  }

  ghost predicate ExclusiveUse(w: World) {
    AtMostOne(w) && NoGroupOnUsed(w)
  }

  predicate UsedUp(x: AC) {
    !IsLVG(x.sc) && x.size <= 0
  }

  /** Every request is for at least one byte. */
  ghost predicate Positive(ws: seq<World>) {
    forall t, p, i :: 0 <= t < |ws| && p in ws[t].acrs && 0 <= i < |ws[t].acrs[p].requests| ==>
      ws[t].acrs[p].requests[i].cap.size > 0
  }

  // ---- what a call knows ----

  /** A call that placed a volume on a drive did so for a drive request, on the AC it read. */
  ghost predicate PlacedOnDrive(w: World) {
    w.flight.Some? ==>
      var f := w.flight.value;
      && (f.placed.None? ==> !f.taken)
      && (f.placed.Some? ==> f.ac.Some? && f.num < |f.acr.requests|)
      && (f.placed.Some? && f.placed.value in w.users ==>
            !IsLVG(f.acr.requests[f.num].cap.sc) && !IsLVG(f.ac.value.sc) && w.users[f.placed.value] == f.ac.value.name)
  }

  /** A drive that was read for a drive request is still a drive. */
  ghost predicate ReadDrive(w: World) {
    w.flight.Some? && w.flight.value.ac.Some? && w.flight.value.num < |w.flight.value.acr.requests| ==>
      var f := w.flight.value;
      !IsLVG(f.acr.requests[f.num].cap.sc) && !IsLVG(f.ac.value.sc) && f.ac.value.name in w.acs ==>
        !IsLVG(w.acs[f.ac.value.name].sc)
  }

  // ---- one step ----

  /** The step gives the drive of AC a, which is still there, to a volume or to a volume group. */
  predicate TakesDrive(w: World, e: Event, a: string) {
    && w.flight.Some? && w.flight.value.ac.Some? && w.flight.value.ac.value.name == a && a in w.acs
    && (e.Converts? || (e.Places? && !IsLVG(w.flight.value.ac.value.sc)))
  }

  /** A step that takes a drive takes one that no volume takes. */
  ghost predicate OnFreeDrive(w: World, e: Event) {
    forall a, i :: TakesDrive(w, e, a) ==> !UsedBy(w.users, i, a)
  }

  /** What a step does to the volumes on drives. */
  lemma UsersAfter(sequential: bool, w: World, e: Event, t: World)
    requires Next(sequential, w, e, t)
    ensures e.Places? ==> MayPlace(w.flight) && e.id !in w.users && t.acs == w.acs
    ensures e.Places? ==> t.flight == Some(w.flight.value.(placed := Some(e.id)))
    ensures e.Places? ==>
              t.users == if IsLVG(w.flight.value.ac.value.sc) then w.users else w.users[e.id := w.flight.value.ac.value.name]
    ensures e.CapacityChanges? ==> Frees(w.acs, e.acs, w.users, e.remaining) && t.users == e.remaining && t.flight == w.flight
    ensures !e.Places? && !e.CapacityChanges? ==> t.users == w.users
  {
    hide Decides, Lists, Frees, MayRead, MayWrite, AfterRelease, Taken;
  }

  /** How a call goes on. */
  lemma CallAfter(sequential: bool, w: World, e: Event, t: World)
    requires Next(sequential, w, e, t)
    ensures e.Begins? ==> w.flight.None?
    ensures e.Releases? || e.Ends? ==> t.flight.None?
    ensures w.flight.Some? && t.flight.None? ==> e.Releases? || e.Ends?
    ensures w.flight.None? && t.flight.Some? ==> e.Begins? && t.flight.value.placed.None? && !t.flight.value.taken
    ensures w.flight.Some? && t.flight.Some? ==>
              var f, g := w.flight.value, t.flight.value;
              && SameCall(w.flight, t.flight)
              && (f.placed.Some? ==> g.placed == f.placed && g.ac == f.ac)
              && (f.placed.None? ==> g.placed.None? || e.Places?)
              && (if e.Takes? then g.taken && f.placed.Some? else g.taken == f.taken)
  {
    hide Decides, Lists, Frees, AfterRelease, Taken;
  }

  lemma StepKeepsPlaced(sequential: bool, w: World, e: Event, t: World)
    requires Inv(sequential, w) && PlacedOnDrive(w) && Next(sequential, w, e, t)
    ensures PlacedOnDrive(t)
  {
    UsersAfter(sequential, w, e, t);
    CallAfter(sequential, w, e, t);
    hide Next, Exclusive, HandedOff, Sequential, WorkerKnows, WellFormed, AtHome;
  }

  /** Which AC a call holds after a step, and for what it converts one. */
  lemma ReadAfter(sequential: bool, w: World, e: Event, t: World)
    requires Next(sequential, w, e, t)
    ensures t.flight.Some? && t.flight.value.ac.Some? ==>
              || (w.flight.Some? && SameCall(w.flight, t.flight) && w.flight.value.ac == t.flight.value.ac)
              || (e.Finds? && e.found in w.acs && t.flight.value.ac == Some(w.acs[e.found]))
    ensures e.Converts? ==> w.flight.Some? && w.flight.value.num < |w.flight.value.acr.requests|
                            && IsLVG(w.flight.value.acr.requests[w.flight.value.num].cap.sc) && t.flight == w.flight
  {
    hide Decides, Lists, Frees, AfterRelease, Taken;
  }

  lemma StepKeepsReadDrive(sequential: bool, w: World, e: Event, t: World)
    requires AtHome(w.home, w.acs) && ReadDrive(w) && Next(sequential, w, e, t)
    ensures ReadDrive(t)
  {
    ACsAfter(sequential, w, e, t);
    ReadAfter(sequential, w, e, t);
    hide Next;
  }

  lemma StepKeepsAtMostOne(sequential: bool, w: World, e: Event, t: World)
    requires AtMostOne(w) && Next(sequential, w, e, t) && OnFreeDrive(w, e)
    ensures AtMostOne(t)
  {
    UsersAfter(sequential, w, e, t);
    ACsAfter(sequential, w, e, t);
    hide Next, NoWorse;
    forall i, j, a | a in t.acs && UsedBy(t.users, i, a) && UsedBy(t.users, j, a) ensures i == j {
      assert a in w.acs;
      assert UsedBy(w.users, i, a) || (e.Places? && i == e.id);
      assert UsedBy(w.users, j, a) || (e.Places? && j == e.id);
    }
  }

  lemma StepKeepsNoGroup(sequential: bool, w: World, e: Event, t: World)
    requires NoGroupOnUsed(w) && ReadDrive(w) && Next(sequential, w, e, t) && OnFreeDrive(w, e)
    ensures NoGroupOnUsed(t)
  {
    UsersAfter(sequential, w, e, t);
    ACsAfter(sequential, w, e, t);
    hide Next;
    forall i, a | a in t.acs && UsedBy(t.users, i, a) ensures !IsLVG(t.acs[a].sc) {
      if e.Places? && i == e.id {
        assert a in w.acs && a == w.flight.value.ac.value.name;
      } else {
        assert UsedBy(w.users, i, a) && a in w.acs;
        assert e.Converts? && a == e.lvg.name ==> TakesDrive(w, e, a);
      }
    }
  }

  /** A step that takes a drive from a volume shows in the next state. */
  lemma ExclusiveMeansFree(sequential: bool, w: World, e: Event, t: World)
    requires Next(sequential, w, e, t) && ExclusiveUse(t)
    ensures OnFreeDrive(w, e)
  {
    UsersAfter(sequential, w, e, t);
    ACsAfter(sequential, w, e, t);
    hide Next, NoWorse, Frees;
    forall a, i | TakesDrive(w, e, a) ensures !UsedBy(w.users, i, a) {
      assert e.Places? ==> UsedBy(t.users, e.id, a);
      assert UsedBy(w.users, i, a) ==> UsedBy(t.users, i, a);
      if UsedBy(w.users, i, a) {
        assert false;
      }
    }
  }

  lemma StaysUsedUp(w: World, m: map<string, AC>, u: map<string, string>, i: string, a: string)
    requires AtMostOne(w) && Frees(w.acs, m, w.users, u) && a in m && a in w.acs && UsedBy(u, i, a)
    requires UsedUp(w.acs[a]) && NoWorse(w.acs[a], m[a])
    ensures UsedUp(m[a])
  {
    assert UsedBy(w.users, i, a);
    if Refilled(w.acs[a], m[a]) {
      assert false;
    }
  }

  /** A used-up drive stays used up while the volume on it is there. */
  lemma StepKeepsUsedUp(sequential: bool, w: World, e: Event, t: World, i: string, a: string)
    requires AtMostOne(w) && Next(sequential, w, e, t) && OnFreeDrive(w, e)
    requires a in w.acs && a in t.acs && UsedBy(w.users, i, a) && UsedBy(t.users, i, a) && UsedUp(w.acs[a])
    ensures UsedUp(t.acs[a])
  {
    UsersAfter(sequential, w, e, t);
    ACsAfter(sequential, w, e, t);
    hide Next, Refilled, NoWorse, Frees, AtMostOne;
    assert e.Converts? && a == e.lvg.name ==> TakesDrive(w, e, a);
    if e.CapacityChanges? { StaysUsedUp(w, e.acs, e.remaining, i, a); }
  }

  // ---- following a call ----

  /** While one call goes on, what it has placed and on which AC stay the same. */
  lemma {:induction false} PlacedStays(sequential: bool, ws: seq<World>, es: seq<Event>, i: nat, j: nat)
    requires Run(sequential, ws, es) && i <= j < |ws|
    requires forall t :: i <= t <= j ==> ws[t].flight.Some?
    requires ws[i].flight.value.placed.Some?
    ensures SameCall(ws[i].flight, ws[j].flight) && ws[j].flight.value.placed == ws[i].flight.value.placed
    ensures ws[j].flight.value.ac == ws[i].flight.value.ac
  {
    hide Next;
    if i < j {
      PlacedStays(sequential, ws, es, i, j - 1);
      CallAfter(sequential, ws[j - 1], es[j - 1], ws[j]);
    }
  }

  /** The call goes on from state i to state j. */
  ghost predicate GoesOn(ws: seq<World>, i: nat, j: nat) {
    i <= j < |ws| && forall t :: i <= t <= j ==> ws[t].flight.Some?
  }

  lemma {:induction false} TakenByTakes(sequential: bool, ws: seq<World>, es: seq<Event>, i: nat, j: nat)
    requires Run(sequential, ws, es) && GoesOn(ws, i, j) && !ws[i].flight.value.taken
    requires forall t :: i <= t < j ==> !es[t].Takes?
    ensures !ws[j].flight.value.taken
  {
    hide Next;
    if i < j {
      TakenByTakes(sequential, ws, es, i, j - 1);
      CallAfter(sequential, ws[j - 1], es[j - 1], ws[j]);
    }
  }

  /** Step s places volume id on the drive of AC a. */
  predicate PlacesOn(w: World, e: Event, id: string, a: string) {
    && e == Places(id) && w.flight.Some? && w.flight.value.ac.Some? && w.flight.value.ac.value.name == a
    && !IsLVG(w.flight.value.ac.value.sc)
  }

  lemma PlacedFor(sequential: bool, w: World, e: Event, t: World, id: string, a: string)
    requires Next(sequential, w, e, t) && PlacesOn(w, e, id, a)
    ensures w.flight.Some? && w.flight.value.ac.Some? && w.flight.value.ac.value.name == a
    ensures UsedBy(t.users, id, a) && t.flight == Some(w.flight.value.(placed := Some(id)))
    ensures w.flight.value.num < |w.flight.value.acr.requests|
    ensures !IsLVG(w.flight.value.acr.requests[w.flight.value.num].cap.sc) && w.flight.value.placed.None?
  {
    UsersAfter(sequential, w, e, t);
    hide Next;
  }

  /** The step that put a volume on a drive. */
  lemma {:induction false} PlacedWhen(sequential: bool, ws: seq<World>, es: seq<Event>, j: nat, id: string, a: string) returns (s: nat)
    requires Run(sequential, ws, es) && j < |ws| && UsedBy(ws[j].users, id, a)
    ensures s < j && PlacesOn(ws[s], es[s], id, a) && Stays(es, s, j, id)
    ensures forall t :: s < t <= j ==> UsedBy(ws[t].users, id, a)
  {
    hide Next, Frees;
    if j > 0 {
      UserAppears(sequential, ws[j - 1], es[j - 1], ws[j], id, a);
      if UsedBy(ws[j - 1].users, id, a) {
        s := PlacedWhen(sequential, ws, es, j - 1, id, a);
      } else {
        s := j - 1;
      }
    }
  }

  lemma UserAppears(sequential: bool, w: World, e: Event, t: World, id: string, a: string)
    requires Next(sequential, w, e, t) && UsedBy(t.users, id, a)
    ensures UsedBy(w.users, id, a) || PlacesOn(w, e, id, a)
    ensures e.CapacityChanges? ==> id in e.remaining
  {
    UsersAfter(sequential, w, e, t);
    hide Next;
  }

  /** No step between s and j removes the volume. */
  ghost predicate Stays(es: seq<Event>, s: nat, j: nat, id: string) {
    j <= |es| && forall t :: s < t < j ==> Leaves(es[t], id)
  }

  predicate Leaves(e: Event, id: string) {
    e.CapacityChanges? ==> id in e.remaining
  }

  lemma {:induction false} StillThere(sequential: bool, ws: seq<World>, es: seq<Event>, s: nat, j: nat, id: string, a: string)
    requires Run(sequential, ws, es) && s < j < |ws| && PlacesOn(ws[s], es[s], id, a) && Stays(es, s, j, id)
    ensures UsedBy(ws[j].users, id, a)
  {
    hide Next, PlacesOn;
    if s == j - 1 {
      PlacedFor(sequential, ws[s], es[s], ws[j], id, a);
    } else {
      StillThere(sequential, ws, es, s, j - 1, id, a);
      assert Leaves(es[j - 1], id);
      UserStays(sequential, ws[j - 1], es[j - 1], ws[j], id, a);
    }
  }

  lemma UserStays(sequential: bool, w: World, e: Event, t: World, id: string, a: string)
    requires Next(sequential, w, e, t) && UsedBy(w.users, id, a) && Leaves(e, id)
    ensures UsedBy(t.users, id, a)
  {
    UsersAfter(sequential, w, e, t);
    hide Next;
  }

  // ---- a volume whose AC has been written leaves no room ----

  /** The call that placed a volume at step s writes the AC before state n. */
  ghost predicate Paid(ws: seq<World>, es: seq<Event>, s: nat, n: nat) {
    exists t :: s < t < n && t < |es| && es[t].Takes? && GoesOn(ws, s + 1, t)
  }

  ghost predicate AllOnFree(ws: seq<World>, es: seq<Event>, n: nat) {
    forall t :: 0 <= t < n && t < |ws| && t < |es| ==> OnFreeDrive(ws[t], es[t])
  }

  lemma {:induction false} FreeKeepsOne(sequential: bool, ws: seq<World>, es: seq<Event>, n: nat)
    requires Run(sequential, ws, es) && n < |ws| && AllOnFree(ws, es, n)
    ensures AtMostOne(ws[n])
  {
    hide Next, OnFreeDrive;
    if n > 0 {
      FreeKeepsOne(sequential, ws, es, n - 1);
      hide AtMostOne;
      StepKeepsAtMostOne(sequential, ws[n - 1], es[n - 1], ws[n]);
    }
  }

  lemma TakesEmpties(sequential: bool, w: World, e: Event, t: World, a: string)
    requires Next(sequential, w, e, t) && e.Takes? && w.flight.Some? && w.flight.value.ac.Some?
    requires w.flight.value.ac.value.name == a && !IsLVG(w.flight.value.ac.value.sc)
    ensures a in t.acs && UsedUp(t.acs[a])
  {
    ACsAfter(sequential, w, e, t);
    hide Next;
  }

  lemma {:induction false} PaidIsUsedUp(sequential: bool, ws: seq<World>, es: seq<Event>, s: nat, n: nat, id: string, a: string)
    requires Run(sequential, ws, es) && s < n < |ws| && AllOnFree(ws, es, n)
    requires PlacesOn(ws[s], es[s], id, a) && (forall t :: s < t <= n ==> UsedBy(ws[t].users, id, a))
    requires a in ws[n].acs && Paid(ws, es, s, n)
    ensures UsedUp(ws[n].acs[a])
  {
    hide Next, OnFreeDrive, AtMostOne, UsedUp;
    var k :| s < k < n && k < |es| && es[k].Takes? && GoesOn(ws, s + 1, k);
    if k == n - 1 {
      PlacedFor(sequential, ws[s], es[s], ws[s + 1], id, a);
      PlacedStays(sequential, ws, es, s + 1, k);
      TakesEmpties(sequential, ws[k], es[k], ws[n], a);
    } else {
      ACsOnlyGo(sequential, ws, es, n - 1, n, a);
      assert Paid(ws, es, s, n - 1);
      PaidIsUsedUp(sequential, ws, es, s, n - 1, id, a);
      FreeKeepsOne(sequential, ws, es, n - 1);
      StepKeepsUsedUp(sequential, ws[n - 1], es[n - 1], ws[n], id, a);
    }
  }

  // ---- the promise that a call serves ----

  /** The call under way in state j serves promise pr, which stood until the call began. */
  ghost predicate Serves(ws: seq<World>, es: seq<Event>, j: nat, pr: Promise) {
    && j < |ws| && ws[j].flight.Some? && ws[j].flight.value.ac.Some? && ws[j].flight.value.ac.value.name == pr.a
    && Made(ws, es, pr) && pr.cap.size > 0
    && exists b: nat :: ServedFrom(ws, es, b, j, pr)
  }

  ghost predicate ServedFrom(ws: seq<World>, es: seq<Event>, b: nat, j: nat, pr: Promise) {
    Aloft(ws, es, b, j) && pr.k < b < |ws| && StandsThrough(ws, pr, b)
  }

  lemma ServedPromise(sequential: bool, ws: seq<World>, es: seq<Event>, j: nat) returns (pr: Promise)
    requires Run(sequential, ws, es) && j < |ws| && ws[j].flight.Some? && ws[j].flight.value.ac.Some? && Positive(ws)
    ensures Serves(ws, es, j, pr)
  {
    hide Next, Made, Exclusive, HandedOff, Sequential, WellFormed, AtHome, WorkerKnows, StandsThrough;
    RunKeepsInv(sequential, ws, es, j);
    var f := ws[j].flight.value;
    var b := CallBegan(sequential, ws, es, j);
    CopyNames(ws[b].acrs, f, f.ac.value.name);
    assert Stands(ws[b].acrs, f.acr.name, f.acr.requests[f.num].cap, f.ac.value.name);
    pr := EveryPromiseWasMade(sequential, ws, es, b, f.acr.name, f.acr.requests[f.num].cap, f.ac.value.name);
    assert ServedFrom(ws, es, b, j, pr);
  }

  lemma RoomIsNotUsedUp(x: AC, r: CapacityRequest)
    requires r.size > 0 && Required(r) <= x.size
    ensures !UsedUp(x)
  {
  }

  /** A call that is about to place or convert has placed nothing before. */
  lemma NothingPlacedYet(sequential: bool, ws: seq<World>, es: seq<Event>, b: nat, s: nat, j: nat)
    requires Run(sequential, ws, es) && Aloft(ws, es, b, j) && j < |es| && (es[j].Places? || es[j].Converts?)
    requires b < s < j
    ensures !es[s].Places?
  {
    hide Next;
    NotPlaced(sequential, ws[j], es[j], ws[j + 1]);
    if es[s].Places? {
      assert SameCall(ws[s].flight, ws[j].flight) && SameCall(ws[s + 1].flight, ws[j].flight);
      UsersAfter(sequential, ws[s], es[s], ws[s + 1]);
      forall t | s + 1 <= t <= j ensures ws[t].flight.Some? { assert SameCall(ws[t].flight, ws[j].flight); }
      PlacedStays(sequential, ws, es, s + 1, j);
    }
  }

  lemma NotPlaced(sequential: bool, w: World, e: Event, t: World)
    requires Next(sequential, w, e, t) && (e.Places? || e.Converts?)
    ensures w.flight.Some? && w.flight.value.placed.None?
  {
    hide Decides, Lists, Frees, MayRead, AfterRelease, Taken;
  }

  // ---- why a drive may be taken twice ----

  /** How the volume that step s puts on the drive promised by pr can be there when the promise is served: its call
      had not written the AC when the ACs were read; or it came between the two reads, from a call whose ACR had changed
      when the ACRs were read; or later, from such a call; or from an earlier call for the promised request itself. */
  ghost predicate Cause(ws: seq<World>, es: seq<Event>, pr: Promise, s: nat) {
    || (s < pr.ka && !Paid(ws, es, s, pr.ka))
    || (pr.ka < s < pr.kr < |ws| && ws[s].flight.Some? && !StillStands(ws[pr.kr].acrs, ws[s].flight.value.acr))
    || Outdated(ws, es, pr.kr, s)
    || OwnCreation(ws, es, pr, s)
  }

  /** Step s put a volume on the drive of the promise, which nothing removed before j. */
  ghost predicate Occupies(ws: seq<World>, es: seq<Event>, pr: Promise, s: nat, j: nat, id: string) {
    s < j <= |es| && s < |ws| && PlacesOn(ws[s], es[s], id, pr.a) && Stays(es, s, j, id) && Cause(ws, es, pr, s)
  }

  /** The ACR of the call that places a volume on a promised drive is not listed. */
  lemma NotListed(sequential: bool, ws: seq<World>, es: seq<Event>, pr: Promise, s: nat, id: string)
    requires Run(sequential, ws, es) && Made(ws, es, pr) && s < |es| && PlacesOn(ws[s], es[s], id, pr.a)
    ensures pr.kr < |ws| && !StillStands(ws[pr.kr].acrs, ws[s].flight.value.acr)
  {
    hide Next, Made, PlacesOn, StillStands, Exclusive, HandedOff, Sequential, WellFormed, AtHome, WorkerKnows;
    MadeInPass(ws, es, pr);
    RunKeepsInv(sequential, ws, es, s);
    PlacedFor(sequential, ws[s], es[s], ws[s + 1], id, pr.a);
    var f := ws[s].flight.value;
    if StillStands(ws[pr.kr].acrs, f.acr) {
      CopyIsThere(ws[pr.kr].acrs, f, pr.a);
      NamedDuringPass(sequential, ws, es, pr, pr.kr, f.acr.name, f.num);
      assert false;
    }
  }

  lemma CopyIsThere(acrs: map<string, ACR>, f: Flight, a: string)
    requires StillStands(acrs, f.acr) && FlightKnows(Some(f)) && f.ac.Some? && f.ac.value.name == a
    ensures Names(acrs, f.acr.name, f.num, a) && ClassOf(acrs, f.acr.name, f.num) == f.acr.requests[f.num].cap.sc
  {
  }

  /** A volume that is placed after the ACRs were read comes from an outdated call or from one for the promise itself. */
  lemma LatePlacer(sequential: bool, ws: seq<World>, es: seq<Event>, pr: Promise, b: nat, s: nat, id: string)
    requires Run(sequential, ws, es) && Made(ws, es, pr) && pr.k < b < |ws| && StandsThrough(ws, pr, b)
    requires pr.kr < s < b && s < |es| && PlacesOn(ws[s], es[s], id, pr.a)
    ensures Outdated(ws, es, pr.kr, s) || OwnCreation(ws, es, pr, s)
  {
    hide Next, Made, PlacesOn, StillStands, Exclusive, HandedOff, Sequential, WellFormed, AtHome, WorkerKnows, StandsThrough;
    MadeInPass(ws, es, pr);
    RunKeepsInv(sequential, ws, es, s);
    PlacedFor(sequential, ws[s], es[s], ws[s + 1], id, pr.a);
    var f := ws[s].flight.value;
    var b0 := CallBegan(sequential, ws, es, s);
    CopyIsThere(ws[b0].acrs, f, pr.a);
    if b0 < pr.kr {
      NotListed(sequential, ws, es, pr, s, id);
    } else if b0 <= pr.k {
      NamedDuringPass(sequential, ws, es, pr, b0, f.acr.name, f.num);
      assert false;
    } else {
      OnlyOwnNames(sequential, ws, es, pr, b, b0, f.acr.name, f.num);
      SameRequest(ws[b0].acrs, f);
    }
  }

  lemma SameRequest(acrs: map<string, ACR>, f: Flight)
    requires StillStands(acrs, f.acr) && f.num < |f.acr.requests|
    ensures acrs[f.acr.name].requests[f.num] == f.acr.requests[f.num]
  {
  }

  /** A volume placed before the ACs were read, on a drive that then had room, has not been paid for. */
  lemma EarlyIsUnpaid(sequential: bool, ws: seq<World>, es: seq<Event>, pr: Promise, s: nat, id: string)
    requires Run(sequential, ws, es) && Made(ws, es, pr) && pr.cap.size > 0 && s < pr.ka && AllOnFree(ws, es, pr.ka)
    requires pr.ka < |ws| && PlacesOn(ws[s], es[s], id, pr.a) && (forall t :: s < t <= pr.ka ==> UsedBy(ws[t].users, id, pr.a))
    ensures !Paid(ws, es, s, pr.ka)
  {
    hide Next, Made, PlacesOn, OnFreeDrive, Paid;
    HeldWhenRead(sequential, ws, es, pr);
    RoomIsNotUsedUp(ws[pr.ka].acs[pr.a], pr.cap);
    if Paid(ws, es, s, pr.ka) {
      PaidIsUsedUp(sequential, ws, es, s, pr.ka, id, pr.a);
      assert false;
    }
  }

  lemma OccupiedHasCause(sequential: bool, ws: seq<World>, es: seq<Event>, j: nat, pr: Promise, id: string) returns (s: nat)
    requires Run(sequential, ws, es) && j < |es| && AllOnFree(ws, es, j) && Serves(ws, es, j, pr)
    requires (es[j].Places? || es[j].Converts?) && UsedBy(ws[j].users, id, pr.a)
    ensures Occupies(ws, es, pr, s, j, id)
  {
    hide Next, Made, PlacesOn, OnFreeDrive, Paid, Stays, Outdated, OwnCreation, StandsThrough, StillStands, Aloft;
    MadeInPass(ws, es, pr);
    s := PlacedWhen(sequential, ws, es, j, id, pr.a);
    var b: nat :| ServedFrom(ws, es, b, j, pr);
    AloftRange(ws, es, b, j);
    PlacesOnIs(ws[s], es[s], id, pr.a);
    if b < s { NothingPlacedYet(sequential, ws, es, b, s, j); }
    if s < pr.ka {
      EarlyIsUnpaid(sequential, ws, es, pr, s, id);
    } else if s < pr.kr {
      NotListed(sequential, ws, es, pr, s, id);
    } else {
      LatePlacer(sequential, ws, es, pr, b, s, id);
    }
  }

  lemma AloftRange(ws: seq<World>, es: seq<Event>, b: nat, j: nat)
    requires Aloft(ws, es, b, j)
    ensures b < j < |ws| && j <= |es| && es[b].Begins?
  {
  }

  lemma PlacesOnIs(w: World, e: Event, id: string, a: string)
    requires PlacesOn(w, e, id, a)
    ensures e == Places(id) && w.flight.Some?
  {
  }

  // ---- the exact condition ----

  /** As long as every drive was free when it was taken: the drive that a call is about to take carries a volume if and
      only if an earlier step put one there that nothing has removed, in one of four ways. */
  lemma DriveIsTakenExactly(sequential: bool, ws: seq<World>, es: seq<Event>, j: nat, pr: Promise)
    requires Run(sequential, ws, es) && j < |es| && AllOnFree(ws, es, j) && Serves(ws, es, j, pr)
    requires es[j].Places? || es[j].Converts?
    ensures (exists id :: UsedBy(ws[j].users, id, pr.a)) <==> exists s: nat, id :: Occupies(ws, es, pr, s, j, id)
  {
    hide Next, OnFreeDrive, Serves, UsedBy;
    if id :| UsedBy(ws[j].users, id, pr.a) {
      var s := OccupiedHasCause(sequential, ws, es, j, pr, id);
    }
    if s: nat, id :| Occupies(ws, es, pr, s, j, id) {
      StillThere(sequential, ws, es, s, j, id, pr.a);
    }
  }

  /** Step j takes a drive that an earlier step has given away. */
  ghost predicate TakenTwice(ws: seq<World>, es: seq<Event>, j: nat) {
    && j < |ws| && j < |es|
    && exists pr, s: nat, id :: Serves(ws, es, j, pr) && TakesDrive(ws[j], es[j], pr.a) && Occupies(ws, es, pr, s, j, id)
  }

  lemma FreeUnlessTakenTwice(sequential: bool, ws: seq<World>, es: seq<Event>, j: nat)
    requires Run(sequential, ws, es) && j < |es| && AllOnFree(ws, es, j) && Positive(ws)
    ensures OnFreeDrive(ws[j], es[j]) <==> !TakenTwice(ws, es, j)
  {
    hide Next, AllOnFree, Serves, UsedBy, Occupies, Positive;
    if !OnFreeDrive(ws[j], es[j]) {
      var a, i :| TakesDrive(ws[j], es[j], a) && UsedBy(ws[j].users, i, a);
      var pr := ServedPromise(sequential, ws, es, j);
      ServesAC(ws, es, j, pr);
      DriveIsTakenExactly(sequential, ws, es, j, pr);
      assert TakenTwice(ws, es, j);
    }
    if TakenTwice(ws, es, j) {
      var pr, s: nat, id :| Serves(ws, es, j, pr) && TakesDrive(ws[j], es[j], pr.a) && Occupies(ws, es, pr, s, j, id);
      DriveIsTakenExactly(sequential, ws, es, j, pr);
    }
  }

  lemma ServesAC(ws: seq<World>, es: seq<Event>, j: nat, pr: Promise)
    requires Serves(ws, es, j, pr)
    ensures ws[j].flight.Some? && ws[j].flight.value.ac.Some? && ws[j].flight.value.ac.value.name == pr.a
  {
  }

  lemma {:induction false} AllFreeUnlessTakenTwice(sequential: bool, ws: seq<World>, es: seq<Event>, m: nat)
    requires Run(sequential, ws, es) && m < |ws| && Positive(ws)
    ensures AllOnFree(ws, es, m) <==> forall j :: 0 <= j < m ==> !TakenTwice(ws, es, j)
  {
    hide Next, OnFreeDrive, TakenTwice, Positive;
    if m > 0 {
      AllFreeUnlessTakenTwice(sequential, ws, es, m - 1);
      if AllOnFree(ws, es, m - 1) { FreeUnlessTakenTwice(sequential, ws, es, m - 1); }
    }
  }

  lemma {:induction false} FreeIsExclusive(sequential: bool, ws: seq<World>, es: seq<Event>, m: nat)
    requires Run(sequential, ws, es) && m < |ws| && AllOnFree(ws, es, m)
    ensures ExclusiveUse(ws[m]) && ReadDrive(ws[m])
  {
    hide Next, OnFreeDrive, Inv;
    if m > 0 {
      FreeIsExclusive(sequential, ws, es, m - 1);
      RunKeepsInv(sequential, ws, es, m - 1);
      InvParts(sequential, ws[m - 1]);
      hide AtMostOne, NoGroupOnUsed, ReadDrive;
      StepKeepsAtMostOne(sequential, ws[m - 1], es[m - 1], ws[m]);
      StepKeepsNoGroup(sequential, ws[m - 1], es[m - 1], ws[m]);
      StepKeepsReadDrive(sequential, ws[m - 1], es[m - 1], ws[m]);
    }
  }

  lemma InvParts(sequential: bool, w: World)
    requires Inv(sequential, w)
    ensures AtHome(w.home, w.acs) && FlightKnows(w.flight)
  {
  }

  /** Over any run: no drive is taken by two volumes, or by a volume and a volume group, in any state up to m - if and only
      if no step before m takes a drive that was given away in one of the four ways. */
  lemma DrivesAreExclusiveExactly(sequential: bool, ws: seq<World>, es: seq<Event>, m: nat)
    requires Run(sequential, ws, es) && m < |ws| && Positive(ws)
    ensures (forall t :: 0 <= t <= m ==> ExclusiveUse(ws[t])) <==> forall j :: 0 <= j < m ==> !TakenTwice(ws, es, j)
  {
    hide Next, OnFreeDrive, TakenTwice, Positive, ExclusiveUse;
    AllFreeUnlessTakenTwice(sequential, ws, es, m);
    if AllOnFree(ws, es, m) {
      forall t | 0 <= t <= m ensures ExclusiveUse(ws[t]) { FreeIsExclusive(sequential, ws, es, t); }
    }
    if forall t :: 0 <= t <= m ==> ExclusiveUse(ws[t]) {
      forall t | 0 <= t < m ensures OnFreeDrive(ws[t], es[t]) {
        assert ExclusiveUse(ws[t + 1]);
        ExclusiveMeansFree(sequential, ws[t], es[t], ws[t + 1]);
      }
    }
  }

  // ---- runs without any of the four ----

  /** A call that has created its Volume CR writes the AC and releases its request. */
  ghost predicate Orderly(ws: seq<World>, es: seq<Event>) {
    forall t :: 0 <= t < |es| && t < |ws| ==> Finishes(ws[t], es[t])
  }

  predicate Finishes(w: World, e: Event) {
    (e.Releases? || e.Ends?) && w.flight.Some? && w.flight.value.placed.Some? ==> e.Releases? && w.flight.value.taken
  }

  /** While a promise stands, only a release changes its ACR. */
  lemma StandingStep(sequential: bool, w: World, e: Event, t: World, p: string, cap: CapacityRequest, a: string)
    requires Next(sequential, w, e, t) && Stands(w.acrs, p, cap, a) && Stands(t.acrs, p, cap, a) && !e.Releases?
    requires WellFormed(w.acrs)
    ensures t.acrs[p] == w.acrs[p]
  {
    hide Decides, Lists, Frees, MayPlace, MayRead, MayWrite;
    if e.Writes? { WrittenElsewhere(sequential, w, e.d, t, p); }
  }

  lemma WrittenElsewhere(sequential: bool, w: World, d: Decision, t: World, p: string)
    requires Next(sequential, w, Writes(d), t) && p in w.acrs && w.acrs[p].status.Reserved? && WellFormed(w.acrs)
    ensures p in t.acrs && t.acrs[p] == w.acrs[p]
  {
    hide ConfirmedBy, LVGCapacityReserved;
  }

  lemma {:induction false} ACRStays(sequential: bool, ws: seq<World>, es: seq<Event>, i: nat, j: nat,
                                    p: string, cap: CapacityRequest, a: string)
    requires Run(sequential, ws, es) && i <= j < |ws| && forall t :: i <= t <= j ==> Stands(ws[t].acrs, p, cap, a)
    requires forall t :: i <= t < j ==> !es[t].Releases?
    ensures p in ws[i].acrs && p in ws[j].acrs && ws[j].acrs[p] == ws[i].acrs[p]
  {
    hide Next, Inv;
    if i < j {
      ACRStays(sequential, ws, es, i, j - 1, p, cap, a);
      RunKeepsInv(sequential, ws, es, j - 1);
      HasWellFormed(sequential, ws[j - 1]);
      StandingStep(sequential, ws[j - 1], es[j - 1], ws[j], p, cap, a);
    }
  }

  lemma HasWellFormed(sequential: bool, w: World)
    requires Inv(sequential, w)
    ensures WellFormed(w.acrs)
  {
  }

  lemma ReleasedStandsNoMore(acrs: map<string, ACR>, p: string, n: nat, a: string)
    requires WellFormed(acrs) && p in acrs && n < |acrs[p].requests|
    ensures !Stands(AfterRelease(acrs, acrs[p], n), p, acrs[p].requests[n].cap, a)
  {
    var y := AfterRelease(acrs, acrs[p], n);
    if p in y {
      forall i | 0 <= i < |y[p].requests| ensures y[p].requests[i].cap != acrs[p].requests[n].cap {
        assert y[p].requests[i] == acrs[p].requests[if i < n then i else i + 1];
      }
    }
  }

  /** The first step at or after s that ends the call of state s. */
  lemma {:induction false} CallEnds(sequential: bool, ws: seq<World>, es: seq<Event>, s: nat, b: nat) returns (r: nat)
    requires Run(sequential, ws, es) && s <= b < |ws| && ws[s].flight.Some? && ws[b].flight.None?
    ensures s <= r < b && (es[r].Releases? || es[r].Ends?) && forall t :: s <= t <= r ==> ws[t].flight.Some?
    decreases b - s
  {
    hide Next;
    CallAfter(sequential, ws[s], es[s], ws[s + 1]);
    if ws[s + 1].flight.None? {
      r := s;
    } else {
      r := CallEnds(sequential, ws, es, s + 1, b);
    }
  }

  /** In an orderly run a request whose volume was placed is released when the call ends, so its promise cannot
      stand until a later call begins. */
  lemma OwnCallReleased(sequential: bool, ws: seq<World>, es: seq<Event>, p: string, cap: CapacityRequest, a: string,
                        b0: nat, s: nat, b: nat)
    requires Run(sequential, ws, es) && Orderly(ws, es) && Aloft(ws, es, b0, s) && s <= b < |ws| && ws[b].flight.None?
    requires ws[s].flight.value.placed.Some? && StillStands(ws[b0].acrs, ws[s].flight.value.acr)
    requires ws[s].flight.value.acr.name == p && ws[s].flight.value.num < |ws[s].flight.value.acr.requests|
    requires ws[s].flight.value.acr.requests[ws[s].flight.value.num].cap == cap
    ensures exists t :: b0 <= t <= b && !Stands(ws[t].acrs, p, cap, a)
  {
    hide Next, Inv, Stands, AfterRelease;
    var f := ws[s].flight.value;
    var r := CallEnds(sequential, ws, es, s, b);
    PlacedStays(sequential, ws, es, s, r);
    assert Finishes(ws[r], es[r]);
    if forall t :: b0 <= t <= b ==> Stands(ws[t].acrs, p, cap, a) {
      forall t | b0 <= t < r ensures !es[t].Releases? {
        CallAfter(sequential, ws[t], es[t], ws[t + 1]);
        if t < s { assert SameCall(ws[t + 1].flight, ws[s].flight); }
      }
      ACRStays(sequential, ws, es, b0, r, p, cap, a);
      RunKeepsInv(sequential, ws, es, r);
      HasWellFormed(sequential, ws[r]);
      ReleaseIs(sequential, ws[r], es[r], ws[r + 1]);
      ReleasedStandsNoMore(ws[r].acrs, p, f.num, a);
      assert false;
    }
  }

  lemma ReleaseIs(sequential: bool, w: World, e: Event, t: World)
    requires Next(sequential, w, e, t) && e.Releases?
    ensures w.flight.Some? && w.flight.value.num < |w.flight.value.acr.requests|
    ensures t.acrs == AfterRelease(w.acrs, w.flight.value.acr, w.flight.value.num)
  {
    hide AfterRelease;
  }

  /** In an orderly run a call that has placed a volume and not written the AC is still under way. */
  lemma UnpaidGoesOn(sequential: bool, ws: seq<World>, es: seq<Event>, s: nat, n: nat, id: string, a: string)
    requires Run(sequential, ws, es) && Orderly(ws, es) && s < n < |ws| && PlacesOn(ws[s], es[s], id, a) && !Paid(ws, es, s, n)
    requires !ws[s].flight.value.taken
    ensures GoesOn(ws, s + 1, n) && SameCall(ws[s].flight, ws[n].flight) && !ws[n].flight.value.taken
  {
    hide Next, PlacesOn;
    PlacedFor(sequential, ws[s], es[s], ws[s + 1], id, a);
    if r :| s < r <= n && ws[r].flight.None? {
      var k := CallEnds(sequential, ws, es, s + 1, r);
      assert Finishes(ws[k], es[k]);
      PlacedStays(sequential, ws, es, s + 1, k);
      forall t | s + 1 <= t < k ensures !es[t].Takes? { assert es[t].Takes? ==> GoesOn(ws, s + 1, t); }
      TakenByTakes(sequential, ws, es, s + 1, k);
      assert false;
    }
    assert GoesOn(ws, s + 1, n);
    forall t | s + 1 <= t < n ensures !es[t].Takes? { assert es[t].Takes? ==> GoesOn(ws, s + 1, t); }
    PlacedStays(sequential, ws, es, s + 1, n);
    TakenByTakes(sequential, ws, es, s + 1, n);
  }

  /** A call under way when the ACRs are read has its ACR listed. */
  lemma ListedWhenAloft(sequential: bool, ws: seq<World>, es: seq<Event>, pr: Promise, f: Option<Flight>)
    requires Run(sequential, ws, es) && Undisturbed(ws, es) && Made(ws, es, pr) && pr.kr < |ws| && SameCall(f, ws[pr.kr].flight)
    ensures StillStands(ws[pr.kr].acrs, f.value.acr)
  {
    hide Next, Made, StillStands;
    MadeInPass(ws, es, pr);
  }

  lemma NotTakenAtPlacing(sequential: bool, ws: seq<World>, es: seq<Event>, s: nat, id: string, a: string)
    requires Run(sequential, ws, es) && s < |es| && PlacesOn(ws[s], es[s], id, a)
    ensures !ws[s].flight.value.taken
  {
    RunKeepsPlaced(sequential, ws, es, s);
    PlacedFor(sequential, ws[s], es[s], ws[s + 1], id, a);
    hide Next;
  }

  lemma {:induction false} RunKeepsPlaced(sequential: bool, ws: seq<World>, es: seq<Event>, n: nat)
    requires Run(sequential, ws, es) && n < |ws|
    ensures PlacedOnDrive(ws[n])
  {
    hide Next, Inv;
    if n > 0 {
      RunKeepsPlaced(sequential, ws, es, n - 1);
      RunKeepsInv(sequential, ws, es, n - 1);
      StepKeepsPlaced(sequential, ws[n - 1], es[n - 1], ws[n]);
    }
  }

  /** Between the two reads nothing is paid for. */
  lemma NotPaidBetweenReads(sequential: bool, ws: seq<World>, es: seq<Event>, pr: Promise, s: nat)
    requires Run(sequential, ws, es) && Undisturbed(ws, es) && Made(ws, es, pr) && s < pr.kr
    requires s < pr.ka ==> !Paid(ws, es, s, pr.ka)
    ensures !Paid(ws, es, s, pr.kr)
  {
    hide Next, Pass, Made;
    MadeInPass(ws, es, pr);
    IsPass(ws, es, pr);
    PassHolds(sequential, ws, es, pr.ka, pr.kr, pr.k);
    if Paid(ws, es, s, pr.kr) {
      assert false;
    }
  }

  lemma NoCause(sequential: bool, ws: seq<World>, es: seq<Event>, j: nat, pr: Promise, s: nat, id: string)
    requires Run(sequential, ws, es) && Undisturbed(ws, es) && Orderly(ws, es) && Serves(ws, es, j, pr)
    requires j < |es| && s < j && PlacesOn(ws[s], es[s], id, pr.a) && (es[j].Places? || es[j].Converts?)
    ensures !Cause(ws, es, pr, s)
  {
    hide Next, Made, Undisturbed, Orderly, PlacesOn, Paid, StillStands, StandsThrough;
    MadeInPass(ws, es, pr);
    PlacesOnIs(ws[s], es[s], id, pr.a);
    NotListed(sequential, ws, es, pr, s, id);
    NotTakenAtPlacing(sequential, ws, es, s, id, pr.a);
    if s < pr.kr && (s < pr.ka ==> !Paid(ws, es, s, pr.ka)) {
      NotPaidBetweenReads(sequential, ws, es, pr, s);
      UnpaidGoesOn(sequential, ws, es, s, pr.kr, id, pr.a);
      ListedWhenAloft(sequential, ws, es, pr, ws[s].flight);
      assert false;
    }
    if Outdated(ws, es, pr.kr, s) {
      AloftAtRead(ws, es, pr.kr, s);
      ListedWhenAloft(sequential, ws, es, pr, ws[s].flight);
      assert false;
    }
    if OwnCreation(ws, es, pr, s) {
      OwnIsReleased(sequential, ws, es, j, pr, s, id);
      assert false;
    }
  }

  lemma AloftAtRead(ws: seq<World>, es: seq<Event>, kr: nat, s: nat)
    requires Outdated(ws, es, kr, s)
    ensures kr < |ws| && SameCall(ws[s].flight, ws[kr].flight)
  {
    hide StillStands;
  }

  lemma OwnIsReleased(sequential: bool, ws: seq<World>, es: seq<Event>, j: nat, pr: Promise, s: nat, id: string)
    requires Run(sequential, ws, es) && Orderly(ws, es) && Serves(ws, es, j, pr) && j < |es| && s < j
    requires PlacesOn(ws[s], es[s], id, pr.a) && (es[j].Places? || es[j].Converts?)
    ensures !OwnCreation(ws, es, pr, s)
  {
    hide Next, Made, Orderly, PlacesOn, Stands, StillStands;
    if OwnCreation(ws, es, pr, s) {
      PlacesOnIs(ws[s], es[s], id, pr.a);
      PlacedFor(sequential, ws[s], es[s], ws[s + 1], id, pr.a);
      var b: nat :| ServedFrom(ws, es, b, j, pr);
      if b < s { NothingPlacedYet(sequential, ws, es, b, s, j); }
      CallAfter(sequential, ws[b], es[b], ws[b + 1]);
      var b0: nat :| pr.k < b0 && Aloft(ws, es, b0, s);
      var b1 := CallBegan(sequential, ws, es, s);
      BeganOnce(sequential, ws, es, b0, b1, s);
      StillAloft(ws, es, b0, s);
      OwnCallReleased(sequential, ws, es, pr.p, pr.cap, pr.a, b0, s + 1, b);
      assert false;
    }
  }

  lemma BeganOnce(sequential: bool, ws: seq<World>, es: seq<Event>, b: nat, c: nat, j: nat)
    requires Run(sequential, ws, es) && Aloft(ws, es, b, j) && Aloft(ws, es, c, j)
    ensures b == c
  {
    hide Next;
    CallAfter(sequential, ws[b], es[b], ws[b + 1]);
    CallAfter(sequential, ws[c], es[c], ws[c + 1]);
  }

  lemma StillAloft(ws: seq<World>, es: seq<Event>, b: nat, s: nat)
    requires Aloft(ws, es, b, s) && s + 1 < |ws| && s + 1 <= |es| && SameCall(ws[s].flight, ws[s + 1].flight)
    ensures Aloft(ws, es, b, s + 1)
  {
  }

  /** In every state of every undisturbed, orderly run no drive is taken twice, and a drive that a volume takes offers no
      room once the call that placed the volume has written the AC. */
  lemma OneVolumePerDrive(sequential: bool, ws: seq<World>, es: seq<Event>, m: nat)
    requires Run(sequential, ws, es) && Undisturbed(ws, es) && Orderly(ws, es) && Positive(ws) && m < |ws|
    ensures ExclusiveUse(ws[m])
    ensures forall i, a :: a in ws[m].acs && UsedBy(ws[m].users, i, a) ==>
              UsedUp(ws[m].acs[a]) || (ws[m].flight.Some? && ws[m].flight.value.placed == Some(i) && !ws[m].flight.value.taken)
  {
    hide Next, Undisturbed, Orderly, Positive, ExclusiveUse, Serves, Occupies, UsedUp, Cause;
    forall j | 0 <= j < m ensures !TakenTwice(ws, es, j) {
      if TakenTwice(ws, es, j) {
        var pr, s: nat, id :| Serves(ws, es, j, pr) && TakesDrive(ws[j], es[j], pr.a) && Occupies(ws, es, pr, s, j, id);
        OccupiesIs(ws, es, pr, s, j, id);
        NoCause(sequential, ws, es, j, pr, s, id);
        assert false;
      }
    }
    hide TakenTwice;
    DrivesAreExclusiveExactly(sequential, ws, es, m);
    AllFreeUnlessTakenTwice(sequential, ws, es, m);
    forall i, a | a in ws[m].acs && UsedBy(ws[m].users, i, a)
      ensures UsedUp(ws[m].acs[a]) || (ws[m].flight.Some? && ws[m].flight.value.placed == Some(i) && !ws[m].flight.value.taken)
    {
      UsedUpOrPending(sequential, ws, es, m, i, a);
    }
  }

  lemma OccupiesIs(ws: seq<World>, es: seq<Event>, pr: Promise, s: nat, j: nat, id: string)
    requires Occupies(ws, es, pr, s, j, id)
    ensures s < j <= |es| && s < |ws| && PlacesOn(ws[s], es[s], id, pr.a) && Cause(ws, es, pr, s)
  {
  }

  lemma UsedUpOrPending(sequential: bool, ws: seq<World>, es: seq<Event>, m: nat, i: string, a: string)
    requires Run(sequential, ws, es) && Orderly(ws, es) && m < |ws| && AllOnFree(ws, es, m)
    requires a in ws[m].acs && UsedBy(ws[m].users, i, a)
    ensures UsedUp(ws[m].acs[a]) || (ws[m].flight.Some? && ws[m].flight.value.placed == Some(i) && !ws[m].flight.value.taken)
  {
    hide Next, Orderly, PlacesOn, Paid, OnFreeDrive, UsedUp;
    var s := PlacedWhen(sequential, ws, es, m, i, a);
    PlacesOnIs(ws[s], es[s], i, a);
    if Paid(ws, es, s, m) {
      PaidIsUsedUp(sequential, ws, es, s, m, i, a);
    } else {
      NotTakenAtPlacing(sequential, ws, es, s, i, a);
      UnpaidGoesOn(sequential, ws, es, s, m, i, a);
      PlacedFor(sequential, ws[s], es[s], ws[s + 1], i, a);
      PlacedStays(sequential, ws, es, s + 1, m);
    }
  }
}
