// An ACR that lists one request name twice - a pod that mounts one claim through two volume entries - is confirmed with
// the same drive for both requests, although the plan holds a drive for each (helpers.go:59-70).

module DuplicateNames {
  import opened Types
  import opened Ordering
  import opened Accounting
  import opened Planner
  import opened Reservation

  const WANTED := CapacityRequest("v", 10, HDD, "")
  const FIRST := Vol(0, WANTED)
  const SECOND := Vol(1, WANTED)

  function Drive(name: string): AC {
    AC(name, "n", 10, HDD, name, None, false)
  }

  function TwoDrives(): seq<AC> {
    [Drive("a"), Drive("b")]
  }

  function Twice(): ACR {
    ACR("r", "ns", Requested, [ReservationRequest(WANTED, []), ReservationRequest(WANTED, [])], ["n"], [])
  }

  function SameDrive(): ACR {
    ACR("r", "ns", Reserved, [ReservationRequest(WANTED, ["b"]), ReservationRequest(WANTED, ["b"])], ["n"], ["n"])
  }

  function Node(): Cap {
    Cap(map["a" := Drive("a"), "b" := Drive("b")], map[Any := ["a", "b"], HDD := ["a", "b"], HDDLVG := ["a", "b"]])
  }

  lemma NodeLists(sc: StorageClass)
    ensures Candidates(Node(), sc) == if Compatible(sc, HDD) then ["a", "b"] else []
  {
  }

  lemma NodeOrdered()
    ensures WellOrdered(Node())
  {
    var c := Node();
    assert "a" != "b" && StrLess("a", "b");
    forall sc, i | 0 <= i < |Candidates(c, sc)|
      ensures Candidates(c, sc)[i] in c.acs && Compatible(sc, c.acs[Candidates(c, sc)[i]].sc)
    {
      NodeLists(sc);
    }
    forall sc, n | n in c.acs && Compatible(sc, c.acs[n].sc) ensures n in Candidates(c, sc) {
      NodeLists(sc);
      assert Candidates(c, sc)[if n == "a" then 0 else 1] == n;
    }
    forall sc, i, j | 0 <= i < j < |Candidates(c, sc)|
      ensures Before(sc, c.acs[Candidates(c, sc)[i]], c.acs[Candidates(c, sc)[j]])
    {
      NodeLists(sc);
    }
  }

  lemma NodeDescribes()
    ensures Describes(Node(), TwoDrives(), "n")
  {
    NodeOrdered();
    hide WellOrdered;
    assert "a" != "b";
    assert TwoDrives()[0] in TwoDrives() && TwoDrives()[1] in TwoDrives();
  }

  function Book(k: nat): View {
    if k == 0 then map[] else if k == 1 then map["a" := Rec(10, HDD)] else map["a" := Rec(10, HDD), "b" := Rec(10, HDD)]
  }

  lemma PicksFirst()
    ensures Step(Node(), Book(0), WANTED, "a", Book(1))
  {
    NodeLists(HDD);
    assert Admissible(Node(), Book(0), WANTED, "a");
  }

  lemma PicksSecond()
    ensures Step(Node(), Book(1), WANTED, "b", Book(2))
  {
    NodeLists(HDD);
    assert "a" != "b";
    assert !Admissible(Node(), Book(1), WANTED, "a") && Admissible(Node(), Book(1), WANTED, "b");
    assert ["a", "b"][1..] == ["b"];
    assert FirstFit(Node(), Book(1), WANTED, ["b"]) == Some("b");
  }

  function ThePlan(): Plan {
    map["n" := map[FIRST := "a", SECOND := "b"]]
  }

  lemma PlanIs()
    ensures PlanOf([FIRST, SECOND], ["a", "b"], 2) == map[FIRST := "a", SECOND := "b"]
  {
    var vols, picks := [FIRST, SECOND], ["a", "b"];
    assert PlanOf(vols, picks, 0) == map[];
    assert PlanOf(vols, picks, 1) == map[FIRST := "a"];
  }

  lemma FromAnEmptyBook(acrs: seq<ACR>)
    requires ConfirmedRequests(acrs) == []
    ensures Covers(Book(0), ConfirmedRequests(acrs))
  {
  }

  lemma CompletedByTwo(c: Cap, v0: View, v1: View, v2: View, x: Vol, y: Vol, a: string, b: string)
    requires Step(c, v0, x.req, a, v1) && Step(c, v1, y.req, b, v2)
    ensures Completed(c, [v0, v1, v2], [x, y], [a, b])
  {
    hide Step;
  }

  lemma BothPlanned(acrs: seq<ACR>)
    requires ConfirmedRequests(acrs) == []
    ensures Planned(TwoDrives(), acrs, "n", [FIRST, SECOND], ThePlan()["n"])
  {
    NodeDescribes();
    PicksFirst();
    PicksSecond();
    PlanIs();
    FromAnEmptyBook(acrs);
    hide Describes, Step, PlanOf, Book, Node, TwoDrives, Completed, Covers;
    CompletedByTwo(Node(), Book(0), Book(1), Book(2), FIRST, SECOND, "a", "b");
    assert PlannedBy(TwoDrives(), acrs, "n", [FIRST, SECOND], ThePlan()["n"], Node(), [Book(0), Book(1), Book(2)], ["a", "b"]);
  }

  lemma AlongOneNode()
    ensures ACsAlong(ThePlan(), ["n"], SECOND) == ["b"] && Matched(ThePlan(), ["n"]) == ["n"]
  {
    assert ["n"][..0] == [];
    assert ACsAlong(ThePlan(), [], SECOND) == [] && Matched(ThePlan(), []) == [];
  }

  lemma FilledOfTwo(plan: Plan, visited: seq<string>, vols: seq<Vol>, b0: ReservationRequest, b1: ReservationRequest,
                    a0: ReservationRequest, a1: ReservationRequest)
    requires Visits(plan, visited) && Filled(plan, visited, vols, b0, a0) && Filled(plan, visited, vols, b1, a1)
    requires a0.reservations == a1.reservations
    ensures AllFilled(plan, visited, vols, [b0, b1], [a0, a1])
  {
    hide Filled, Visits;
  }

  lemma VisitsNode()
    ensures Visits(ThePlan(), ["n"])
  {
  }

  lemma BothFilledAlike()
    ensures AllFilled(ThePlan(), ["n"], [FIRST, SECOND], Twice().requests, SameDrive().requests)
  {
    VisitsNode();
    FilledBy(0);
    FilledBy(1);
    hide Filled, Visits, AllFilled, ThePlan;
    var b, a := Twice().requests, SameDrive().requests;
    FilledOfTwo(ThePlan(), ["n"], [FIRST, SECOND], b[0], b[1], a[0], a[1]);
  }

  lemma FilledBy(i: nat)
    requires i < 2 && Visits(ThePlan(), ["n"])
    ensures Filled(ThePlan(), ["n"], [FIRST, SECOND], Twice().requests[i], SameDrive().requests[i])
  {
    AlongOneNode();
    hide ACsAlong, Visits;
    assert [FIRST, SECOND][1] == SECOND;
  }

  lemma VolumesAre()
    ensures VolumesOf(Twice().requests) == [FIRST, SECOND] && VolSorted([FIRST, SECOND])
  {
  }

  lemma ConfirmedFrom(l: seq<AC>, rl: seq<ACR>, r: ACR, c: ACR, plan: Plan, n: string, vols: seq<Vol>)
    requires n in plan && (forall k :: k in plan ==> k == n) && n in r.requested
    requires VolumesOf(r.requests) == vols && VolSorted(vols) && Planned(l, rl, n, vols, plan[n])
    requires AllFilled(plan, [n], vols, r.requests, c.requests) && Matched(plan, r.requested) == [n]
    requires c == r.(status := Reserved, reserved := [n], requests := c.requests) && r.status.Requested?
    ensures Decides(false, l, rl, r, Confirm(c))
  {
    hide Planned, AllFilled, Matched, VolSorted, VolumesOf;
    assert ConfirmedBy(l, rl, r, c, plan, [n], vols);
    hide ConfirmedBy;
  }

  lemma Spelled()
    ensures var r, c := Twice(), SameDrive();
            && "n" in ThePlan() && (forall k :: k in ThePlan() ==> k == "n") && r.requested == ["n"] && r.status.Requested?
            && c == r.(status := Reserved, reserved := ["n"], requests := c.requests)
            && "b" in c.requests[0].reservations && "b" in c.requests[1].reservations
  {
  }

  /** With nothing reserved before, the ACR that asks for v twice may be confirmed with drive b for both requests. */
  lemma OneDriveForBoth(acrs: seq<ACR>)
    requires ConfirmedRequests(acrs) == []
    ensures Decides(false, TwoDrives(), acrs, Twice(), Confirm(SameDrive()))
    ensures "b" in SameDrive().requests[0].reservations && "b" in SameDrive().requests[1].reservations
  {
    hide *;
    Spelled();
    BothPlanned(acrs);
    BothFilledAlike();
    AlongOneNode();
    VolumesAre();
    ConfirmedFrom(TwoDrives(), acrs, Twice(), SameDrive(), ThePlan(), "n", [FIRST, SECOND]);
  }
}
