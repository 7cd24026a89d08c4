// How far an LVG AC can be over-committed. A confirmed reservation is recorded with the size it asked
// for, while LVM will give it whole extents (node_capacity.go:118-138 against 150-152); inside one
// plan the later requests are recorded rounded up (node_capacity.go:176-184).

module Overcommit {
  import opened Types
  import opened Align
  import opened Ordering
  import opened Accounting
  import opened Greedy
  import NodeCapacityModel

  // ---- whole extents ----

  lemma SumWhole(x: int, y: int)
    requires x % PE == 0 && y % PE == 0
    ensures (x + y) % PE == 0 && (x - y) % PE == 0
  {
  }

  /** Room for x bytes among whole extents is room for x rounded up. */
  lemma WholeRoom(x: int, room: int)
    requires 0 <= x && room % PE == 0
    ensures x <= room <==> AlignPE(x) <= room
  {
    AlignPEIsLeastExactly(x);
  }

  // ---- what a plan adds ----

  function PlannedAligned(vols: seq<Vol>, picks: seq<string>, a: string, k: nat): (r: int)
    requires k <= |picks| <= |vols|
    ensures r % PE == 0
  {
    if k == 0 then 0
    else PlannedAligned(vols, picks, a, k - 1) + (if picks[k - 1] == a then AlignPE(vols[k - 1].req.size) else 0)
  }

  lemma {:induction false} PlannedStable(vols: seq<Vol>, picks: seq<string>, a: string, i: nat, j: nat)
    requires i <= j <= |picks| <= |vols|
    requires forall m :: i <= m < j ==> picks[m] != a
    ensures PlannedAligned(vols, picks, a, i) == PlannedAligned(vols, picks, a, j)
  {
    if i < j { PlannedStable(vols, picks, a, i, j - 1); }
  }

  lemma PlannedFrom(vols: seq<Vol>, picks: seq<string>, a: string, last: nat)
    requires last < |picks| <= |vols| && picks[last] == a && forall j :: last < j < |picks| ==> picks[j] != a
    ensures PlannedAligned(vols, picks, a, |picks|) == PlannedAligned(vols, picks, a, last) + AlignPE(vols[last].req.size)
  {
    PlannedStable(vols, picks, a, last + 1, |picks|);
  }

  /** Every pick of an AC that is already recorded adds its whole extents to the record. */
  lemma {:induction false} RecordGrows(c: Cap, views: seq<View>, vols: seq<Vol>, picks: seq<string>, a: string, i: nat)
    requires GreedyRun(c, views, vols, picks) && i <= |picks| && a in views[0]
    requires forall j :: 0 <= j < |picks| && picks[j] == a ==> IsLVG(vols[j].req.sc)
    ensures a in views[i] && views[0][a].size + PlannedAligned(vols, picks, a, i) <= views[i][a].size
  {
    hide AlignPE;
    if i > 0 {
      RecordGrows(c, views, vols, picks, a, i - 1);
      assert Step(c, views[i - 1], vols[i - 1].req, picks[i - 1], views[i]);
    }
  }

  /** What is recorded for an AC that the plan takes first: whole extents but for the first request. */
  ghost predicate FreshRecord(v: View, a: string, planned: int) {
    if a in v then exists raw: nat :: Recorded(v[a].size, planned, raw) else planned == 0
  }

  predicate Recorded(size: int, planned: int, raw: nat) {
    planned - AlignPE(raw) + raw <= size && AlignPE(raw) <= planned
  }

  lemma FreshRecordStep(v: View, r: CapacityRequest, b: string, v1: View, a: string, planned: int)
    requires Booked(v, r, b, v1) && FreshRecord(v, a, planned)
    requires b == a ==> IsLVG(r.sc)
    ensures FreshRecord(v1, a, planned + (if b == a then AlignPE(r.size) else 0))
  {
    if a in v {
      var raw: nat :| Recorded(v[a].size, planned, raw);
      assert Recorded(v1[a].size, planned + (if b == a then AlignPE(r.size) else 0), raw);
    } else if b == a {
      assert Recorded(v1[a].size, AlignPE(r.size), r.size);
    }
  }

  lemma {:induction false} FreshRecordGrows(c: Cap, views: seq<View>, vols: seq<Vol>, picks: seq<string>, a: string, i: nat)
    requires GreedyRun(c, views, vols, picks) && i <= |picks| && a !in views[0]
    requires forall j :: 0 <= j < |picks| && picks[j] == a ==> IsLVG(vols[j].req.sc)
    ensures FreshRecord(views[i], a, PlannedAligned(vols, picks, a, i))
  {
    hide AlignPE, FreshRecord;
    if i == 0 {
      assert FreshRecord(views[0], a, 0) by { NothingRecorded(views[0], a); }
    } else {
      FreshRecordGrows(c, views, vols, picks, a, i - 1);
      assert Step(c, views[i - 1], vols[i - 1].req, picks[i - 1], views[i]);
      FreshRecordStep(views[i - 1], vols[i - 1].req, picks[i - 1], views[i], a, PlannedAligned(vols, picks, a, i - 1));
    }
  }

  lemma NothingRecorded(v: View, a: string)
    requires a !in v
    ensures FreshRecord(v, a, 0)
  {
  }

  // ---- the law ----

  /** After a run that last picks a at step `last`: the extents promised from a, by the reservations rs
      and by the run, exceed the AC at most by what the recorded size hides. */
  lemma OvercommitLaw(c: Cap, views: seq<View>, vols: seq<Vol>, picks: seq<string>,
                      rs: seq<ReservationRequest>, a: string, last: nat)
    requires GreedyRun(c, views, vols, picks) && WellOrdered(c)
    requires Covers(views[0], rs) && KnowsOnly(views[0], rs)
    requires last < |picks| && picks[last] == a && IsLVG(vols[last].req.sc)
    requires forall j :: last < j < |picks| ==> picks[j] != a
    ensures a in c.acs
    ensures var total := AlignedTotal(rs, a) + PlannedAligned(vols, picks, a, |picks|);
            if a in views[0] then total <= c.acs[a].size + (AlignedTotal(rs, a) - views[0][a].size)
            else total < c.acs[a].size + PE
    ensures c.acs[a].size % PE == 0 ==>
              var total := AlignedTotal(rs, a) + PlannedAligned(vols, picks, a, |picks|);
              if a in views[0] then total <= c.acs[a].size + (AlignedTotal(rs, a) - AlignPE(views[0][a].size))
              else total <= c.acs[a].size
  {
    hide AlignPE, AlignedTotal, PlannedAligned, WellOrdered, Covers, KnowsOnly, RawTotal, NamedIn;
    PickFits(c, views, vols, picks, last);
    var size, r := c.acs[a].size, vols[last].req;
    PlannedFrom(vols, picks, a, last);
    var planned := PlannedAligned(vols, picks, a, last);
    assert forall j :: 0 <= j < |picks| && picks[j] == a ==> IsLVG(vols[j].req.sc) by {
      PicksAreExclusive(c, views, vols, picks);
    }
    if a in views[0] {
      RecordGrows(c, views, vols, picks, a, last);
      RecordNonNegative(views[0], rs, a);
      if size % PE == 0 { RoomLeft(views[0][a].size, planned + AlignPE(r.size), size); }
    } else {
      UnrecordedIsUnnamed(views[0], rs, a);
      FreshRecordGrows(c, views, vols, picks, a, last);
      FreshRoom(views[last], r, c, a, planned);
    }
  }

  lemma RoomLeft(recorded: int, whole: int, size: int)
    requires 0 <= recorded && whole % PE == 0 && size % PE == 0 && recorded + whole <= size
    ensures AlignPE(recorded) + whole <= size
  {
    SumWhole(size, whole);
    WholeRoom(recorded, size - whole);
  }

  lemma FreshRoom(v: View, r: CapacityRequest, c: Cap, a: string, planned: int)
    requires FreshRecord(v, a, planned) && planned % PE == 0
    requires IsLVG(r.sc) && Admissible(c, v, r, a)
    ensures planned + AlignPE(r.size) < c.acs[a].size + PE
    ensures c.acs[a].size % PE == 0 ==> planned + AlignPE(r.size) <= c.acs[a].size
  {
    if a in v {
      var raw: nat :| Recorded(v[a].size, planned, raw);
      if c.acs[a].size % PE != 0 { return; }
      SumWhole(planned, AlignPE(raw));
      SumWhole(planned - AlignPE(raw), AlignPE(r.size));
      RoomLeft(raw, planned - AlignPE(raw) + AlignPE(r.size), c.acs[a].size);
    }
  }

  lemma RecordNonNegative(v: View, rs: seq<ReservationRequest>, a: string)
    requires Covers(v, rs) && KnowsOnly(v, rs) && a in v
    ensures 0 <= RawTotal(rs, a) <= v[a].size
  {
    TotalsHide(rs, a);
  }

  lemma UnrecordedIsUnnamed(v: View, rs: seq<ReservationRequest>, a: string)
    requires Covers(v, rs) && a !in v
    ensures AlignedTotal(rs, a) == 0
  {
    UnnamedTotals(rs, a);
  }

  lemma {:induction false} UnnamedTotals(rs: seq<ReservationRequest>, a: string)
    requires !NamedIn(rs, a)
    ensures AlignedTotal(rs, a) == 0
  {
    if rs != [] {
      var init, last := rs[..|rs| - 1], rs[|rs| - 1];
      forall i | 0 <= i < |init| ensures a !in init[i].reservations { assert init[i] == rs[i]; }
      UnnamedTotals(init, a);
      NodeCapacityModel.UnnamedMentions(last.reservations, a, AlignPE(last.cap.size));
    }
  }

  // ---- what a recorded size can hide ----

  /** 1 for a request that does not ask for whole extents. */
  function Ragged(size: nat): nat {
    if size % PE == 0 then 0 else 1
  }

  /** How often a is mentioned by a request whose size is not a whole number of extents. */
  function RaggedMentions(rs: seq<ReservationRequest>, a: string): int {
    if rs == [] then 0
    else RaggedMentions(rs[..|rs| - 1], a) + Mentions(rs[|rs| - 1].reservations, a, Ragged(rs[|rs| - 1].cap.size))
  }

  /** Totals of k ragged mentions and any number of whole ones: each ragged mention hides at most all but
      one byte of an extent. */
  predicate Hides(aligned: int, raw: int, k: int) {
    && aligned % PE == 0 && 0 <= k <= raw && k * PE <= aligned && aligned + k <= raw + k * PE
    && (k == 0 ==> aligned == raw)
  }

  lemma HidesSum(a: int, r: int, k: int, b: int, s: int, l: int)
    requires Hides(a, r, k) && Hides(b, s, l)
    ensures Hides(a + b, r + s, k + l)
  {
    SumWhole(a, b);
  }

  lemma {:induction false} MentionsHide(names: seq<string>, a: string, size: nat)
    ensures Hides(Mentions(names, a, AlignPE(size)), Mentions(names, a, size), Mentions(names, a, Ragged(size)))
  {
    if names != [] {
      var init := names[..|names| - 1];
      MentionsHide(init, a, size);
      AlignPEFixpoint(size);
      if names[|names| - 1] == a {
        HidesSum(Mentions(init, a, AlignPE(size)), Mentions(init, a, size), Mentions(init, a, Ragged(size)),
                 AlignPE(size), size, Ragged(size));
      }
    }
  }

  lemma {:induction false} TotalsHide(rs: seq<ReservationRequest>, a: string)
    ensures Hides(AlignedTotal(rs, a), RawTotal(rs, a), RaggedMentions(rs, a))
  {
    if rs != [] {
      var init, last := rs[..|rs| - 1], rs[|rs| - 1];
      TotalsHide(init, a);
      MentionsHide(last.reservations, a, last.cap.size);
      HidesSum(AlignedTotal(init, a), RawTotal(init, a), RaggedMentions(init, a), Mentions(last.reservations, a, AlignPE(last.cap.size)),
               Mentions(last.reservations, a, last.cap.size), Mentions(last.reservations, a, Ragged(last.cap.size)));
      hide Hides, AlignPE, Ragged;
    }
  }

  lemma HiddenAtMost(aligned: int, raw: int, k: int)
    requires Hides(aligned, raw, k)
    ensures aligned - AlignPE(raw) <= k * PE - AlignPE(k)
  {
    var whole := aligned - k * PE;
    MulMod(k, PE);
    SumWhole(aligned, k * PE);
    assert raw >= whole + k;
    assert AlignPE(raw) >= whole + k;
    SumWhole(AlignPE(raw), whole);
    WholeRoom(k, AlignPE(raw) - whole);
  }

  lemma ExtentsHidden(k: int)
    requires 0 <= k
    ensures k <= 1 ==> k * PE - AlignPE(k) == 0
    ensures k >= 1 ==> k * PE - AlignPE(k) <= (k - 1) * PE
  {
    if k == 1 { assert AlignPE(1) == PE; }
    if k >= 1 { assert AlignPE(k) >= PE by { if AlignPE(k) < PE { MultiplesApart(0, AlignPE(k)); } } }
  }

  /** With k earlier mentions that do not ask for whole extents, the extents promised from an AC exceed it
      by at most k extents less k bytes rounded up: not at all for k <= 1, and never for an AC
      that this plan is the first to reserve. */
  lemma OvercommitBound(c: Cap, views: seq<View>, vols: seq<Vol>, picks: seq<string>,
                        rs: seq<ReservationRequest>, a: string, last: nat)
    requires GreedyRun(c, views, vols, picks) && WellOrdered(c)
    requires Covers(views[0], rs) && KnowsOnly(views[0], rs)
    requires last < |picks| && picks[last] == a && IsLVG(vols[last].req.sc)
    requires forall j :: last < j < |picks| ==> picks[j] != a
    ensures a in c.acs
    ensures var k := RaggedMentions(rs, a);
            AlignedTotal(rs, a) + PlannedAligned(vols, picks, a, |picks|) <= c.acs[a].size + (if k >= 1 then k else 1) * (PE - 1)
    ensures c.acs[a].size % PE == 0 ==>
              var k := RaggedMentions(rs, a);
              var total := AlignedTotal(rs, a) + PlannedAligned(vols, picks, a, |picks|);
              && total <= c.acs[a].size + (k * PE - AlignPE(k))
              && (k <= 1 || a !in views[0] ==> total <= c.acs[a].size)
  {
    hide AlignPE, AlignedTotal, PlannedAligned, WellOrdered, Covers, KnowsOnly, RawTotal, RaggedMentions;
    OvercommitLaw(c, views, vols, picks, rs, a, last);
    TotalsHide(rs, a);
    ExtentsHidden(RaggedMentions(rs, a));
    HiddenNonNegative(RaggedMentions(rs, a));
    if a in views[0] {
      RecordNonNegative(views[0], rs, a);
      AlignPEMonotone(RawTotal(rs, a), views[0][a].size);
      HiddenAtMost(AlignedTotal(rs, a), RawTotal(rs, a), RaggedMentions(rs, a));
    }
  }

  lemma HiddenNonNegative(k: int)
    requires 0 <= k
    ensures 0 <= k * PE - AlignPE(k)
  {
    MulMod(k, PE);
    WholeRoom(k, k * PE);
  }

  // ---- the exact condition ----

  /** Some request of class sc with at least one byte is admitted although the extents promised from a then
      exceed the AC. */
  ghost predicate Overcommits(c: Cap, v: View, rs: seq<ReservationRequest>, a: string, sc: StorageClass)
    requires a in c.acs
  {
    exists r: CapacityRequest :: r.sc == sc && OvercommittedBy(c, v, rs, a, r)
  }

  ghost predicate OvercommittedBy(c: Cap, v: View, rs: seq<ReservationRequest>, a: string, r: CapacityRequest)
    requires a in c.acs
  {
    r.size > 0 && Compatible(r.sc, c.acs[a].sc) && Admissible(c, v, r, a) && AlignedTotal(rs, a) + Required(r) > c.acs[a].size
  }

  /** The whole extents in a number of bytes. */
  function Whole(bytes: int): (r: int)
    ensures r % PE == 0 && r <= bytes < r + PE
    ensures bytes % PE == 0 <==> r == bytes
  {
    ModSub(bytes, PE);
    bytes - bytes % PE
  }

  lemma WholeIsGreatest(x: int, bytes: int)
    requires x % PE == 0
    ensures x <= bytes <==> x <= Whole(bytes)
  {
    if Whole(bytes) < x { MultiplesApart(Whole(bytes), x); }
  }

  /** A reserved AC can be over-committed by a further LVG request if and only if it was reserved for LVG, the recorded
      size leaves an extent, and the extents it leaves exceed those that the reservations really leave. When requests
      name one AC each, the recorded size is their sum. */
  lemma OvercommitExactly(c: Cap, v: View, rs: seq<ReservationRequest>, a: string, sc: StorageClass)
    requires Covers(v, rs) && NamedIn(rs, a)
    requires a in c.acs && IsLVG(sc) && Compatible(sc, c.acs[a].sc)
    ensures Overcommits(c, v, rs, a, sc) <==>
              && IsLVG(FirstClass(rs, a))
              && v[a].size + PE <= c.acs[a].size
              && AlignedTotal(rs, a) + Whole(c.acs[a].size - v[a].size) > c.acs[a].size
    ensures Exact(v, rs) ==> v[a].size == RawTotal(rs, a)
  {
    hide AlignedTotal, RawTotal, FirstClass, NamedIn, Whole;
    var room := c.acs[a].size - v[a].size;
    TotalsHide(rs, a);
    if Overcommits(c, v, rs, a, sc) {
      var r: CapacityRequest :| r.sc == sc && OvercommittedBy(c, v, rs, a, r);
      WholeIsGreatest(Required(r), room);
      if Required(r) < PE { MultiplesApart(0, Required(r)); }
    }
    if IsLVG(FirstClass(rs, a)) && PE <= room && AlignedTotal(rs, a) + Whole(room) > c.acs[a].size {
      WholeIsGreatest(PE, room);
      AlignPEFixpoint(Whole(room));
      var r := CapacityRequest("", Whole(room), sc, LabelOf(c.acs[a].group));
      assert OvercommittedBy(c, v, rs, a, r);
    }
  }

  /** For an AC of whole extents the condition says that rounding the recorded size up gives less than the AC and less
      than rounding up each reservation. */
  lemma OvercommitOfWholeExtents(size: int, recorded: nat, aligned: int)
    requires size % PE == 0
    ensures recorded + PE <= size && aligned + Whole(size - recorded) > size <==> AlignPE(recorded) < size && aligned > AlignPE(recorded)
  {
    hide Whole;
    SumWhole(size, AlignPE(recorded));
    WholeIsGreatest(size - AlignPE(recorded), size - recorded);
    SumWhole(size, Whole(size - recorded));
    WholeRoom(recorded, size - Whole(size - recorded));
    if AlignPE(recorded) < size { MultiplesApart(AlignPE(recorded), size); }
  }

  // ---- the bound is reached for every k ----

  function OneByteRequest(a: string): ReservationRequest {
    ReservationRequest(CapacityRequest("r", 1, HDDLVG, ""), [a])
  }

  function OneByteReservations(k: nat, a: string): seq<ReservationRequest> {
    seq(k, i => OneByteRequest(a))
  }

  lemma OneMention(a: string, size: int)
    ensures Mentions([a], a, size) == size
  {
    assert [a][..0] == [] && Mentions([], a, size) == 0;
  }

  lemma {:induction false} OneByteTotals(k: nat, a: string)
    ensures var rs := OneByteReservations(k, a);
            RawTotal(rs, a) == k && AlignedTotal(rs, a) == k * PE && RaggedMentions(rs, a) == k
  {
    var rs := OneByteReservations(k, a);
    if k > 0 {
      OneByteTotals(k - 1, a);
      assert rs[..k - 1] == OneByteReservations(k - 1, a) && rs[k - 1] == OneByteRequest(a);
      assert AlignPE(1) == PE;
      OneMention(a, 1);
      OneMention(a, PE);
    }
  }

  lemma {:induction false} OneByteNames(k: nat, a: string)
    requires k >= 1
    ensures var rs := OneByteReservations(k, a);
            (forall b :: NamedIn(rs, b) <==> b == a) && FirstClass(rs, a) == HDDLVG
  {
    var rs := OneByteReservations(k, a);
    assert a in rs[0].reservations;
    if k > 1 {
      OneByteNames(k - 1, a);
      assert rs[..k - 1] == OneByteReservations(k - 1, a);
    } else {
      NothingNamed(a);
      assert rs[..0] == [];
    }
  }

  lemma NothingNamed(a: string)
    ensures !NamedIn([], a)
  {
  }

  /** One AC on which k one-byte reservations leave exactly one extent, on paper. */
  function OneExtentLeft(k: nat, a: string): Cap {
    Cap(map[a := AC(a, "n", AlignPE(k) + PE, HDDLVG, "lvg", None, false)], map[HDDLVG := [a]])
  }

  lemma OneByteCovered(k: nat, a: string)
    requires k >= 1
    ensures var rs, v: View := OneByteReservations(k, a), map[a := Rec(k, HDDLVG)];
            Covers(v, rs) && KnowsOnly(v, rs) && Exact(v, rs)
  {
    OneByteTotals(k, a);
    OneByteNames(k, a);
    hide RawTotal, NamedIn, FirstClass, OneByteReservations;
  }

  lemma OneExtentLeftOrdered(k: nat, a: string)
    ensures WellOrdered(OneExtentLeft(k, a))
  {
  }

  /** The bound is attained for every number of ragged mentions: k one-byte reservations and one more
      one-byte volume. */
  lemma OvercommitIsReached(k: nat)
    requires k >= 1
    ensures exists c: Cap, views: seq<View>, vols: seq<Vol>, picks: seq<string>, rs: seq<ReservationRequest>, a: string ::
              && Completed(c, views, vols, picks) && WellOrdered(c)
              && Covers(views[0], rs) && KnowsOnly(views[0], rs) && Exact(views[0], rs)
              && RaggedMentions(rs, a) == k && a in c.acs && c.acs[a].size % PE == 0
              && AlignedTotal(rs, a) + PlannedAligned(vols, picks, a, |picks|) == c.acs[a].size + (k * PE - AlignPE(k))
  {
    var a := "a";
    var c, rs := OneExtentLeft(k, a), OneByteReservations(k, a);
    var one := CapacityRequest("r", 1, HDDLVG, "");
    var v0: View := map[a := Rec(k, HDDLVG)];
    var v1: View := map[a := Rec(k + PE, HDDLVG)];
    var views, vols, picks := [v0, v1], [Vol(0, one)], [a];
    assert AlignPE(1) == PE;
    SumWhole(AlignPE(k), PE);
    assert Step(c, v0, one, a, v1);
    assert PlannedAligned(vols, picks, a, 1) == PE;
    OneByteTotals(k, a);
    OneByteCovered(k, a);
    OneExtentLeftOrdered(k, a);
    hide Covers, KnowsOnly, Exact, AlignedTotal, RaggedMentions, WellOrdered, AlignPE, Select, Booked;
    assert Completed(c, views, vols, picks);
    assert views[0] == v0;
  }

  // ---- bin packing ----

  function TwoGroups(): Cap {
    Cap(map["l" := AC("l", "n", 2 * PE, HDDLVG, "g", None, false), "m" := AC("m", "n", 3 * PE, HDDLVG, "h", None, false)],
        map[HDDLVG := ["l", "m"]])
  }

  lemma TwoGroupsOrdered()
    ensures WellOrdered(TwoGroups())
  {
    var c := TwoGroups();
    assert "l" != "m";
    assert Before(HDDLVG, c.acs["l"], c.acs["m"]);
    forall sc ensures Candidates(c, sc) == if sc.HDDLVG? then ["l", "m"] else [] {}
  }

  function Extents(i: nat, n: nat): Vol {
    Vol(i, CapacityRequest("r", n * PE, HDDLVG, ""))
  }

  /** Every volume has an AC of its class, and no AC more extents than it has. */
  ghost predicate Packs(c: Cap, vols: seq<Vol>, places: seq<string>) {
    && |places| == |vols|
    && (forall i :: 0 <= i < |vols| ==> places[i] in c.acs && Compatible(vols[i].req.sc, c.acs[places[i]].sc)
                                        && LabelOf(c.acs[places[i]].group) == vols[i].req.group)
    && forall a :: a in c.acs ==> PlannedAligned(vols, places, a, |places|) <= c.acs[a].size
  }

  /** For LVG first fit is not complete either: LVGs of two and three extents could hold one, two and two, but do not. */
  lemma LVGIsNotComplete()
    ensures WellOrdered(TwoGroups())
    ensures exists views: seq<View>, vols: seq<Vol>, picks: seq<string>, places: seq<string> ::
              && Stuck(TwoGroups(), views, vols, picks) && views[0] == map[]
              && SizeSorted(vols) && Packs(TwoGroups(), vols, places)
  {
    TwoGroupsOrdered();
    hide WellOrdered;
    var c := TwoGroups();
    assert "l" != "m";
    var vols := [Extents(0, 1), Extents(1, 2), Extents(2, 2)];
    var v0: View := map[];
    var v1: View := map["l" := Rec(PE, HDDLVG)];
    var v2: View := map["l" := Rec(PE, HDDLVG), "m" := Rec(2 * PE, HDDLVG)];
    hide AlignPE;
    WholeSizes();
    GroupSelect(v0, vols[0].req);
    GroupSelect(v1, vols[1].req);
    GroupSelect(v2, vols[2].req);
    assert Step(c, v0, vols[0].req, "l", v1);
    assert Step(c, v1, vols[1].req, "m", v2);
    assert Stuck(c, [v0, v1, v2], vols, ["l", "m"]);
    PlacesFit(vols);
  }

  lemma WholeSizes()
    ensures AlignPE(PE) == PE && AlignPE(2 * PE) == 2 * PE
  {
    AlignPEFixpoint(PE);
    AlignPEFixpoint(2 * PE);
  }

  lemma GroupSelect(v: View, r: CapacityRequest)
    requires r.sc.HDDLVG?
    ensures Select(TwoGroups(), v, r) ==
              if Admissible(TwoGroups(), v, r, "l") then Some("l") else if Admissible(TwoGroups(), v, r, "m") then Some("m") else None
  {
    var c := TwoGroups();
    assert Candidates(c, r.sc) == ["l", "m"] && ["l", "m"][1..] == ["m"] && ["m"][1..] == [];
    assert FirstFit(c, v, r, ["m"]) == if Admissible(c, v, r, "m") then Some("m") else None;
    assert FirstFit(c, v, r, ["l", "m"]) == if Admissible(c, v, r, "l") then Some("l") else FirstFit(c, v, r, ["m"]);
    hide Admissible;
  }

  lemma PlacesFit(vols: seq<Vol>)
    requires vols == [Extents(0, 1), Extents(1, 2), Extents(2, 2)]
    ensures Packs(TwoGroups(), vols, ["m", "l", "m"])
  {
    WholeSizes();
    var places := ["m", "l", "m"];
    assert "l" != "m";
    hide AlignPE;
    PlannedSum(vols, places, "l");
    PlannedSum(vols, places, "m");
  }

  lemma PlannedSum(vols: seq<Vol>, places: seq<string>, a: string)
    requires |vols| == |places| == 3
    ensures PlannedAligned(vols, places, a, 3) ==
              (if places[0] == a then AlignPE(vols[0].req.size) else 0) + (if places[1] == a then AlignPE(vols[1].req.size) else 0)
              + (if places[2] == a then AlignPE(vols[2].req.size) else 0)
  {
    assert PlannedAligned(vols, places, a, 1) == if places[0] == a then AlignPE(vols[0].req.size) else 0;
    hide AlignPE;
  }
}
