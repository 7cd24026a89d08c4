// Runs from the empty cluster in which the handshake fails: a volume created between the worker's two reads, or only
// written there (pkg/base/capacityplanner/planner.go:133-142), a creation under way whose ACR is sent again
// (pkg/scheduler/extender/extender.go:547-575), an AC update that fails and is only logged
// (pkg/common/volume_operations.go:250-252), and a creation that ends before it releases.

module ReadRace {
  import opened Types
  import opened Ordering
  import opened Accounting
  import opened Planner
  import opened Reservation
  import opened Stores
  import opened SchedulerExtender
  import opened Protocol
  import opened Promises
  import opened DriveUse

  const DRIVE := AC("a", "n", 10, HDD, "d", None, false)
  const USED := DRIVE.(size := 0)
  const WANTED := CapacityRequest("v", 10, HDD, "")
  const HOME: map<string, string> := map["a" := "n"]

  function Asking(name: string): ACR {
    ACR(name, "ns", Requested, [ReservationRequest(WANTED, [])], ["n"], [])
  }

  function Holder(name: string): ACR {
    ACR(name, "ns", Reserved, [ReservationRequest(WANTED, ["a"])], ["n"], ["n"])
  }

  function OneDrive(): Cap {
    Cap(map["a" := DRIVE], map[Any := ["a"], HDD := ["a"], HDDLVG := ["a"]])
  }

  lemma OneDriveDescribes()
    ensures Describes(OneDrive(), [DRIVE], "n")
  {
    var c := OneDrive();
    forall sc
      ensures Candidates(c, sc) == if Compatible(sc, HDD) then ["a"] else []
    {
    }
    assert WellOrdered(c);
  }

  lemma OneDrivePlan(acrs: seq<ACR>)
    requires ConfirmedRequests(acrs) == []
    ensures Planned([DRIVE], acrs, "n", [Vol(0, WANTED)], map[Vol(0, WANTED) := "a"])
  {
    OneDriveDescribes();
    var c, vols, picks := OneDrive(), [Vol(0, WANTED)], ["a"];
    var v0: View := map[];
    var v1: View := map["a" := Rec(10, HDD)];
    assert Step(c, v0, WANTED, "a", v1);
    hide Describes, Step;
    assert Completed(c, [v0, v1], vols, picks);
    assert PlanOf(vols, picks, 1) == map[Vol(0, WANTED) := "a"] by { assert PlanOf(vols, picks, 0) == map[]; }
    assert PlannedBy([DRIVE], acrs, "n", vols, map[Vol(0, WANTED) := "a"], c, [v0, v1], picks);
  }

  function ThePlan(): Plan {
    map["n" := map[Vol(0, WANTED) := "a"]]
  }

  lemma PlanFills(name: string)
    ensures AllFilled(ThePlan(), ["n"], [Vol(0, WANTED)], Asking(name).requests, Holder(name).requests)
    ensures Matched(ThePlan(), ["n"]) == ["n"]
  {
    var v := Vol(0, WANTED);
    assert ACsAlong(ThePlan(), ["n"], v) == ["a"] by { assert ACsAlong(ThePlan(), [], v) == []; assert ["n"][..0] == []; }
    assert Filled(ThePlan(), ["n"], [v], Asking(name).requests[0], Holder(name).requests[0]);
    assert Matched(ThePlan(), ["n"]) == ["n"] by { assert Matched(ThePlan(), []) == []; assert ["n"][..0] == []; }
  }

  /** With no reservation in its list, the worker may promise the drive. */
  lemma MayConfirm(acrs: seq<ACR>, name: string)
    requires ConfirmedRequests(acrs) == []
    ensures Decides(false, [DRIVE], acrs, Asking(name), Confirm(Holder(name)))
  {
    hide Planned, AllFilled, Matched;
    OneDrivePlan(acrs);
    PlanFills(name);
    assert VolumesOf(Asking(name).requests) == [Vol(0, WANTED)];
    var r, c, plan, visited, vols := Asking(name), Holder(name), ThePlan(), ["n"], [Vol(0, WANTED)];
    assert plan != map[] by { assert "n" in plan; }
    assert multiset(vols) == multiset(VolumesOf(r.requests)) && VolSorted(vols);
    assert forall n :: n in plan ==> n in r.requested && Planned([DRIVE], acrs, n, vols, plan[n]);
    assert AllFilled(plan, visited, vols, r.requests, c.requests);
    assert c == r.(status := Reserved, reserved := Matched(plan, r.requested), requests := c.requests);
    assert ConfirmedBy([DRIVE], acrs, r, c, plan, visited, vols);
    hide ConfirmedBy;
  }

  lemma ListsOne<T>(k: string, x: T)
    ensures Lists([x], map[k := x])
  {
    assert ListedBy([x], map[k := x], [k]);
  }

  lemma ListsTwo<T>(k: string, x: T, l: string, y: T)
    requires k != l
    ensures Lists([x, y], map[k := x, l := y])
  {
    var m := map[k := x, l := y];
    assert m.Keys == {k, l};
    assert |m| == |m.Keys|;
    assert ListedBy([x, y], m, [k, l]);
  }

  // ---- single steps on one drive ----

  function At(ac: AC, acrs: map<string, ACR>, users: map<string, string>, worker: Worker, flight: Option<Flight>): World {
    World(map["a" := ac], acrs, users, worker, flight, HOME)
  }

  function Call(name: string, ac: Option<AC>, placed: Option<string>, taken: bool): Option<Flight> {
    Some(Flight(Holder(name), 0, "n", ac, placed, taken))
  }

  ghost predicate Goes(w: World, e: Event, t: World) {
    Next(false, w, e, t)
  }

  lemma Asks(acrs: map<string, ACR>, name: string)
    requires name !in acrs
    ensures Goes(At(DRIVE, acrs, map[], Idle, None), Requests(Asking(name)), At(DRIVE, acrs[name := Asking(name)], map[], Idle, None))
  {
  }

  lemma Reads(ac: AC, acrs: map<string, ACR>, list: seq<ACR>, users: map<string, string>, flight: Option<Flight>, name: string)
    requires name in acrs && acrs[name] == Asking(name) && Lists(list, acrs)
    ensures Goes(At(ac, acrs, users, Idle, flight), Picks(name), At(ac, acrs, users, Picked(Asking(name)), flight))
    ensures Goes(At(ac, acrs, users, Picked(Asking(name)), flight), ReadsACs([ac]), At(ac, acrs, users, HasACs(Asking(name), [ac]), flight))
    ensures forall seen :: Goes(At(ac, acrs, users, HasACs(Asking(name), seen), flight), ReadsACRs(list),
                                At(ac, acrs, users, Ready(Asking(name), seen, list), flight))
  {
    ListsOne("a", ac);
    hide Lists;
  }

  lemma WriteStep(w: World, d: Decision)
    requires w.worker.Ready? && d.Confirm? && StillStands(w.acrs, w.worker.target)
    requires Decides(false, w.worker.capacity, w.worker.reservations, w.worker.target, d)
    ensures Goes(w, Writes(d), w.(acrs := w.acrs[w.worker.target.name := d.acr], worker := Idle))
  {
    hide Decides;
  }

  lemma Confirms(ac: AC, acrs: map<string, ACR>, list: seq<ACR>, users: map<string, string>, flight: Option<Flight>, name: string)
    requires name in acrs && acrs[name] == Asking(name) && ConfirmedRequests(list) == []
    ensures Goes(At(ac, acrs, users, Ready(Asking(name), [DRIVE], list), flight), Writes(Confirm(Holder(name))),
                 At(ac, acrs[name := Holder(name)], users, Idle, flight))
  {
    MayConfirm(list, name);
    hide Decides, Goes, Holder, ConfirmedRequests;
    WriteStep(At(ac, acrs, users, Ready(Asking(name), [DRIVE], list), flight), Confirm(Holder(name)));
  }

  lemma Starts(ac: AC, acrs: map<string, ACR>, users: map<string, string>, worker: Worker, name: string)
    requires name in acrs && acrs[name] == Holder(name) && ac.nodeId == "n"
    ensures Goes(At(ac, acrs, users, worker, None), Begins(name, 0, "n"), At(ac, acrs, users, worker, Call(name, None, None, false)))
    ensures Goes(At(ac, acrs, users, worker, Call(name, None, None, false)), Finds("a"),
                 At(ac, acrs, users, worker, Call(name, Some(ac), None, false)))
  {
    assert "a" in Holder(name).requests[0].reservations;
  }

  lemma Uses(ac: AC, acrs: map<string, ACR>, users: map<string, string>, worker: Worker, name: string, copy: AC, id: string)
    requires id !in users && copy.name == "a" && !IsLVG(copy.sc)
    ensures Goes(At(ac, acrs, users, worker, Call(name, Some(copy), None, false)), Places(id),
                 At(ac, acrs, users[id := "a"], worker, Call(name, Some(copy), Some(id), false)))
  {
  }

  lemma Pays(acrs: map<string, ACR>, users: map<string, string>, worker: Worker, name: string, id: string)
    ensures Goes(At(DRIVE, acrs, users, worker, Call(name, Some(DRIVE), Some(id), false)), Takes(10),
                 At(USED, acrs, users, worker, Call(name, Some(DRIVE), Some(id), true)))
  {
    assert map["a" := DRIVE]["a" := USED] == map["a" := USED];
  }

  lemma Leaves(ac: AC, acrs: map<string, ACR>, users: map<string, string>, worker: Worker, name: string,
               copy: Option<AC>, placed: Option<string>, taken: bool)
    ensures Goes(At(ac, acrs, users, worker, Call(name, copy, placed, taken)), Releases, At(ac, acrs - {name}, users, worker, None))
  {
  }

  // ---- runs, step by step ----

  /** At the end of the run q is promised the drive, which has no room for it. */
  ghost predicate BreaksPromise(ws: seq<World>, es: seq<Event>) {
    Run(false, ws, es) && Stands(ws[|es|].acrs, "q", WANTED, "a") && Broken(ws[|es|], "a", WANTED)
  }

  /** At the end of the run two volumes take one drive. */
  ghost predicate SharesDrive(ws: seq<World>, es: seq<Event>) {
    Run(false, ws, es) && !AtMostOne(ws[|es|])
  }

  lemma OneMore(ws: seq<World>, es: seq<Event>, e: Event, t: World) returns (xs: seq<World>, fs: seq<Event>)
    requires Run(false, ws, es) && Goes(ws[|es|], e, t)
    ensures Run(false, xs, fs) && |xs| == |fs| + 1 && xs[|fs|] == t
  {
    hide Next;
    xs, fs := ws + [t], es + [e];
    forall k | 0 <= k < |fs| ensures Next(false, xs[k], fs[k], xs[k + 1]) {
      if k < |es| { assert Next(false, ws[k], es[k], ws[k + 1]); }
    }
  }

  /** The worker reads and confirms the ACR while nothing else happens. */
  lemma WholePass(ws: seq<World>, es: seq<Event>, acrs: map<string, ACR>, list: seq<ACR>, users: map<string, string>,
                  flight: Option<Flight>, name: string) returns (xs: seq<World>, fs: seq<Event>)
    requires Run(false, ws, es) && ws[|es|] == At(DRIVE, acrs, users, Idle, flight)
    requires name in acrs && acrs[name] == Asking(name) && Lists(list, acrs) && ConfirmedRequests(list) == []
    ensures Run(false, xs, fs) && |xs| == |fs| + 1 && xs[|fs|] == At(DRIVE, acrs[name := Holder(name)], users, Idle, flight)
  {
    hide Goes, Lists, Run, ConfirmedRequests;
    Reads(DRIVE, acrs, list, users, flight, name);
    Confirms(DRIVE, acrs, list, users, flight, name);
    xs, fs := OneMore(ws, es, Picks(name), At(DRIVE, acrs, users, Picked(Asking(name)), flight));
    xs, fs := OneMore(xs, fs, ReadsACs([DRIVE]), At(DRIVE, acrs, users, HasACs(Asking(name), [DRIVE]), flight));
    xs, fs := OneMore(xs, fs, ReadsACRs(list), At(DRIVE, acrs, users, Ready(Asking(name), [DRIVE], list), flight));
    xs, fs := OneMore(xs, fs, Writes(Confirm(Holder(name))), At(DRIVE, acrs[name := Holder(name)], users, Idle, flight));
  }

  function PHeldQAsking(): map<string, ACR> {
    map["p" := Holder("p"), "q" := Asking("q")]
  }

  const NO_ACRS: map<string, ACR> := map[]
  const P_ASKS := map["p" := Asking("p")]
  const BOTH_ASK := map["p" := Asking("p"), "q" := Asking("q")]
  const Q_ASKS := map["q" := Asking("q")]
  const Q_HELD := map["q" := Holder("q")]
  const V_ON_A := map["v" := "a"]

  lemma Constants()
    ensures "p" !in NO_ACRS && NO_ACRS["p" := Asking("p")] == P_ASKS
    ensures "q" !in P_ASKS && P_ASKS["q" := Asking("q")] == BOTH_ASK
    ensures "p" in BOTH_ASK && BOTH_ASK["p"] == Asking("p") && BOTH_ASK["p" := Holder("p")] == PHeldQAsking()
    ensures "p" in PHeldQAsking() && PHeldQAsking()["p"] == Holder("p") && PHeldQAsking() - {"p"} == Q_ASKS
    ensures "q" in PHeldQAsking() && PHeldQAsking()["q"] == Asking("q")
    ensures "q" in Q_ASKS && Q_ASKS["q"] == Asking("q") && Q_ASKS["q" := Holder("q")] == Q_HELD
    ensures "q" in Q_HELD && Q_HELD["q"] == Holder("q")
    ensures var none: map<string, string> := map[]; none["v" := "a"] == V_ON_A
    ensures DRIVE.name == USED.name == "a" && DRIVE.nodeId == USED.nodeId == "n" && !IsLVG(DRIVE.sc) && !IsLVG(USED.sc)
  {
    assert "p" != "q";
  }

  lemma ACRLists()
    ensures Lists([Asking("p"), Asking("q")], BOTH_ASK) && ConfirmedRequests([Asking("p"), Asking("q")]) == []
    ensures Lists([Asking("q")], Q_ASKS) && ConfirmedRequests([Asking("q")]) == []
    ensures Lists([Holder("p"), Asking("q")], PHeldQAsking())
  {
    ListsTwo("p", Asking("p"), "q", Asking("q"));
    ListsTwo("p", Holder("p"), "q", Asking("q"));
    ListsOne("q", Asking("q"));
    NothingConfirmed(Asking("p"), Asking("q"));
    hide Lists, ConfirmedRequests;
  }

  lemma Nothing() returns (ws: seq<World>, es: seq<Event>)
    ensures Run(false, ws, es) && |ws| == |es| + 1 && ws[|es|] == At(DRIVE, NO_ACRS, map[], Idle, None)
  {
    ws, es := [At(DRIVE, NO_ACRS, map[], Idle, None)], [];
  }

  /** Both pods ask, and p is promised the drive. */
  lemma PromisedToP() returns (ws: seq<World>, es: seq<Event>)
    ensures Run(false, ws, es) && |ws| == |es| + 1 && ws[|es|] == At(DRIVE, PHeldQAsking(), map[], Idle, None)
  {
    hide *;
    Constants();
    ACRLists();
    Asks(NO_ACRS, "p");
    Asks(P_ASKS, "q");
    ws, es := Nothing();
    ws, es := OneMore(ws, es, Requests(Asking("p")), At(DRIVE, P_ASKS, map[], Idle, None));
    ws, es := OneMore(ws, es, Requests(Asking("q")), At(DRIVE, BOTH_ASK, map[], Idle, None));
    ws, es := WholePass(ws, es, BOTH_ASK, [Asking("p"), Asking("q")], map[], None, "p");
  }

  lemma NothingConfirmed(r: ACR, s: ACR)
    requires r.status.Requested? && s.status.Requested?
    ensures ConfirmedRequests([s]) == [] && ConfirmedRequests([r, s]) == []
  {
    assert [s][..0] == [] && [r, s][..1] == [r] && [r][..0] == [];
    assert ConfirmedRequests([]) == [];
    assert ConfirmedRequests([r]) == [];
  }

  lemma PromisedQ(ws: seq<World>, es: seq<Event>, acrs: map<string, ACR>, users: map<string, string>, worker: Worker, flight: Option<Flight>)
    requires Run(false, ws, es) && |ws| == |es| + 1 && ws[|es|] == At(USED, acrs, users, worker, flight)
    requires "q" in acrs && acrs["q"] == Holder("q")
    ensures BreaksPromise(ws, es)
  {
    hide Run;
    assert Protocol.Names(acrs, "q", 0, "a");
  }

  lemma TwoOnOne(ws: seq<World>, es: seq<Event>, ac: AC, acrs: map<string, ACR>, worker: Worker, flight: Option<Flight>)
    requires Run(false, ws, es) && |ws| == |es| + 1 && ws[|es|] == At(ac, acrs, V_ON_A["w" := "a"], worker, flight)
    ensures SharesDrive(ws, es)
  {
    hide Run;
    var users := ws[|es|].users;
    assert "v" != "w";
    assert UsedBy(users, "v", "a") && UsedBy(users, "w", "a");
  }

  /** A volume is placed on the drive that another volume takes. */
  lemma SecondVolume(ws: seq<World>, es: seq<Event>, ac: AC, acrs: map<string, ACR>, name: string)
    returns (xs: seq<World>, fs: seq<Event>)
    requires Run(false, ws, es) && |ws| == |es| + 1 && ws[|es|] == At(ac, acrs, V_ON_A, Idle, None)
    requires name in acrs && acrs[name] == Holder(name)
    requires ac.name == "a" && ac.nodeId == "n" && !IsLVG(ac.sc)
    ensures SharesDrive(xs, fs)
  {
    assert "w" !in V_ON_A by { assert "v" != "w"; }
    Starts(ac, acrs, V_ON_A, Idle, name);
    Uses(ac, acrs, V_ON_A, Idle, name, ac, "w");
    hide *;
    xs, fs := OneMore(ws, es, Begins(name, 0, "n"), At(ac, acrs, V_ON_A, Idle, Call(name, None, None, false)));
    xs, fs := OneMore(xs, fs, Finds("a"), At(ac, acrs, V_ON_A, Idle, Call(name, Some(ac), None, false)));
    xs, fs := OneMore(xs, fs, Places("w"), At(ac, acrs, V_ON_A["w" := "a"], Idle, Call(name, Some(ac), Some("w"), false)));
    TwoOnOne(xs, fs, ac, acrs, Idle, Call(name, Some(ac), Some("w"), false));
  }

  /** p's volume is created between the worker's two reads for q: q is promised a drive without a byte left,
      and its volume becomes the second on that drive. */
  lemma CreatedBetweenReads()
    ensures exists ws, es :: BreaksPromise(ws, es)
    ensures exists ws, es :: SharesDrive(ws, es)
  {
    hide *;
    Constants();
    ACRLists();
    var ws, es := PromisedToP();
    var held, reading := PHeldQAsking(), HasACs(Asking("q"), [DRIVE]);
    Reads(DRIVE, held, [Holder("p"), Asking("q")], map[], None, "q");
    ws, es := OneMore(ws, es, Picks("q"), At(DRIVE, held, map[], Picked(Asking("q")), None));
    ws, es := OneMore(ws, es, ReadsACs([DRIVE]), At(DRIVE, held, map[], reading, None));
    ws, es := CreatesFor(ws, es, held, map[], reading, "p", "v", true);
    Reads(USED, Q_ASKS, [Asking("q")], V_ON_A, None, "q");
    Confirms(USED, Q_ASKS, [Asking("q")], V_ON_A, None, "q");
    ws, es := OneMore(ws, es, ReadsACRs([Asking("q")]), At(USED, Q_ASKS, V_ON_A, Ready(Asking("q"), [DRIVE], [Asking("q")]), None));
    ws, es := OneMore(ws, es, Writes(Confirm(Holder("q"))), At(USED, Q_HELD, V_ON_A, Idle, None));
    PromisedQ(ws, es, Q_HELD, V_ON_A, Idle, None);
    var xs, fs := SecondVolume(ws, es, USED, Q_HELD, "q");
  }

  /** CreateVolume from the first read to the release, its AC update successful or not. */
  lemma CreatesFor(ws: seq<World>, es: seq<Event>, acrs: map<string, ACR>, users: map<string, string>, worker: Worker,
                   name: string, id: string, paid: bool) returns (xs: seq<World>, fs: seq<Event>)
    requires Run(false, ws, es) && ws[|es|] == At(DRIVE, acrs, users, worker, None)
    requires name in acrs && acrs[name] == Holder(name) && id !in users
    ensures Run(false, xs, fs) && |xs| == |fs| + 1
    ensures xs[|fs|] == At(if paid then USED else DRIVE, acrs - {name}, users[id := "a"], worker, None)
  {
    hide Goes, Next;
    Starts(DRIVE, acrs, users, worker, name);
    Uses(DRIVE, acrs, users, worker, name, DRIVE, id);
    xs, fs := OneMore(ws, es, Begins(name, 0, "n"), At(DRIVE, acrs, users, worker, Call(name, None, None, false)));
    xs, fs := OneMore(xs, fs, Finds("a"), At(DRIVE, acrs, users, worker, Call(name, Some(DRIVE), None, false)));
    xs, fs := OneMore(xs, fs, Places(id), At(DRIVE, acrs, users[id := "a"], worker, Call(name, Some(DRIVE), Some(id), false)));
    if paid {
      Pays(acrs, users[id := "a"], worker, name, id);
      xs, fs := OneMore(xs, fs, Takes(10), At(USED, acrs, users[id := "a"], worker, Call(name, Some(DRIVE), Some(id), true)));
    }
    var ac := if paid then USED else DRIVE;
    Leaves(ac, acrs, users[id := "a"], worker, name, Some(DRIVE), Some(id), paid);
    xs, fs := OneMore(xs, fs, Releases, At(ac, acrs - {name}, users[id := "a"], worker, None));
  }

  const P_SENT_AGAIN := map["p" := Resent(Holder("p"), ["m"]), "q" := Asking("q")]

  lemma SentAgain(flight: Option<Flight>)
    ensures Goes(At(DRIVE, PHeldQAsking(), map[], Idle, flight), Resends("p", ["m"]), At(DRIVE, P_SENT_AGAIN, map[], Idle, flight))
    ensures "q" in P_SENT_AGAIN && P_SENT_AGAIN["q"] == Asking("q")
  {
    assert "p" != "q" && "m" != "n";
    hide Resent;
    assert PHeldQAsking()["p" := Resent(Holder("p"), ["m"])] == P_SENT_AGAIN;
  }

  lemma SentAgainListed()
    ensures Lists([Resent(Holder("p"), ["m"]), Asking("q")], P_SENT_AGAIN)
    ensures ConfirmedRequests([Resent(Holder("p"), ["m"]), Asking("q")]) == []
  {
    ListsTwo("p", Resent(Holder("p"), ["m"]), "q", Asking("q"));
    NothingConfirmed(Resent(Holder("p"), ["m"]), Asking("q"));
    hide Lists, ConfirmedRequests;
  }

  /** p's volume is being created when the extender sends p again for another node: its AC is free to be promised
      to q, and the creation then takes it. */
  lemma CreatedAfterResend()
    ensures exists ws, es :: BreaksPromise(ws, es)
  {
    hide *;
    Constants();
    var ws, es := PromisedToP();
    var held, call := PHeldQAsking(), Call("p", Some(DRIVE), None, false);
    var last := P_SENT_AGAIN["q" := Holder("q")];
    Starts(DRIVE, held, map[], Idle, "p");
    SentAgain(call);
    SentAgainListed();
    Uses(DRIVE, last, map[], Idle, "p", DRIVE, "v");
    Pays(last, map["v" := "a"], Idle, "p", "v");
    ws, es := OneMore(ws, es, Begins("p", 0, "n"), At(DRIVE, held, map[], Idle, Call("p", None, None, false)));
    ws, es := OneMore(ws, es, Finds("a"), At(DRIVE, held, map[], Idle, call));
    ws, es := OneMore(ws, es, Resends("p", ["m"]), At(DRIVE, P_SENT_AGAIN, map[], Idle, call));
    ws, es := WholePass(ws, es, P_SENT_AGAIN, [Resent(Holder("p"), ["m"]), Asking("q")], map[], call, "q");
    ws, es := OneMore(ws, es, Places("v"), At(DRIVE, last, map["v" := "a"], Idle, Call("p", Some(DRIVE), Some("v"), false)));
    ws, es := OneMore(ws, es, Takes(10), At(USED, last, map["v" := "a"], Idle, Call("p", Some(DRIVE), Some("v"), true)));
    PromisedQ(ws, es, last, map["v" := "a"], Idle, Call("p", Some(DRIVE), Some("v"), true));
  }

  /** The AC update for p's volume fails: the used drive keeps its size, is promised to q in all quiet, and q's volume
      becomes the second on it. */
  lemma UpdateLost()
    ensures exists ws, es :: SharesDrive(ws, es)
  {
    hide *;
    Constants();
    ACRLists();
    var ws, es := PromisedToP();
    ws, es := CreatesFor(ws, es, PHeldQAsking(), map[], Idle, "p", "v", false);
    ws, es := WholePass(ws, es, Q_ASKS, [Asking("q")], V_ON_A, None, "q");
    ws, es := SecondVolume(ws, es, DRIVE, Q_HELD, "q");
  }

  lemma Quits(ac: AC, acrs: map<string, ACR>, users: map<string, string>, worker: Worker, flight: Option<Flight>)
    ensures Goes(At(ac, acrs, users, worker, flight), Ends, At(ac, acrs, users, worker, None))
  {
  }

  /** The call for p's volume reads its request and the AC and creates the Volume CR. */
  lemma PlacedForP() returns (ws: seq<World>, es: seq<Event>)
    ensures Run(false, ws, es) && |ws| == |es| + 1
    ensures ws[|es|] == At(DRIVE, PHeldQAsking(), V_ON_A, Idle, Call("p", Some(DRIVE), Some("v"), false))
  {
    hide *;
    Constants();
    ws, es := PromisedToP();
    var held := PHeldQAsking();
    Starts(DRIVE, held, map[], Idle, "p");
    Uses(DRIVE, held, map[], Idle, "p", DRIVE, "v");
    ws, es := OneMore(ws, es, Begins("p", 0, "n"), At(DRIVE, held, map[], Idle, Call("p", None, None, false)));
    ws, es := OneMore(ws, es, Finds("a"), At(DRIVE, held, map[], Idle, Call("p", Some(DRIVE), None, false)));
    ws, es := OneMore(ws, es, Places("v"), At(DRIVE, held, V_ON_A, Idle, Call("p", Some(DRIVE), Some("v"), false)));
  }

  /** p's volume is there when the ACs are read for q, but its AC is written only afterwards: q is promised the drive, and
      q's volume becomes the second on it. */
  lemma PendingWhenRead()
    ensures exists ws, es :: SharesDrive(ws, es)
  {
    hide *;
    Constants();
    ACRLists();
    var ws, es := PlacedForP();
    var held, reading, call := PHeldQAsking(), HasACs(Asking("q"), [DRIVE]), Call("p", Some(DRIVE), Some("v"), false);
    Reads(DRIVE, held, [Holder("p"), Asking("q")], V_ON_A, call, "q");
    Pays(held, V_ON_A, reading, "p", "v");
    Leaves(USED, held, V_ON_A, reading, "p", Some(DRIVE), Some("v"), true);
    Reads(USED, Q_ASKS, [Asking("q")], V_ON_A, None, "q");
    Confirms(USED, Q_ASKS, [Asking("q")], V_ON_A, None, "q");
    ws, es := OneMore(ws, es, Picks("q"), At(DRIVE, held, V_ON_A, Picked(Asking("q")), call));
    ws, es := OneMore(ws, es, ReadsACs([DRIVE]), At(DRIVE, held, V_ON_A, reading, call));
    ws, es := OneMore(ws, es, Takes(10), At(USED, held, V_ON_A, reading, Call("p", Some(DRIVE), Some("v"), true)));
    ws, es := OneMore(ws, es, Releases, At(USED, Q_ASKS, V_ON_A, reading, None));
    ws, es := OneMore(ws, es, ReadsACRs([Asking("q")]), At(USED, Q_ASKS, V_ON_A, Ready(Asking("q"), [DRIVE], [Asking("q")]), None));
    ws, es := OneMore(ws, es, Writes(Confirm(Holder("q"))), At(USED, Q_HELD, V_ON_A, Idle, None));
    ws, es := SecondVolume(ws, es, USED, Q_HELD, "q");
  }

  /** The call for p's volume ends without a release, and a later call for the same request places another volume. */
  lemma NeverReleased()
    ensures exists ws, es :: SharesDrive(ws, es)
  {
    hide *;
    Constants();
    var ws, es := PlacedForP();
    var held := PHeldQAsking();
    Quits(DRIVE, held, V_ON_A, Idle, Call("p", Some(DRIVE), Some("v"), false));
    ws, es := OneMore(ws, es, Ends, At(DRIVE, held, V_ON_A, Idle, None));
    ws, es := SecondVolume(ws, es, DRIVE, held, "p");
  }
}
