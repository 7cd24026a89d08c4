// Value-level vocabulary of the planner: what has been reserved, which AC may be chosen,
// and what a whole selection run on one node looks like. The heap code in NodeCapacity.dfy
// is proved to follow these definitions.

module Accounting {
  import opened Types
  import opened Align
  import opened Ordering

  /** One entry of reservedACs: recorded size and class. */
  datatype Rec = Rec(size: int, sc: StorageClass)
  type View = map<string, Rec>

  /** The immutable part of a nodeCapacity. */
  datatype Cap = Cap(acs: map<string, AC>, order: map<StorageClass, seq<string>>)

  function Candidates(c: Cap, sc: StorageClass): seq<string> {
    if sc in c.order then c.order[sc] else []
  }

  predicate Eligible(ac: AC, node: string) {
    ac.nodeId == node && !ac.tainted
  }

  /** c holds exactly the untainted ACs of the node, and its candidate lists are in order. */
  ghost predicate Describes(c: Cap, acs: seq<AC>, node: string) {
    && (forall n :: n in c.acs ==> c.acs[n].name == n && c.acs[n] in acs && Eligible(c.acs[n], node))
    && (forall x :: x in acs && Eligible(x, node) ==> x.name in c.acs && c.acs[x.name] == x)
    && WellOrdered(c)
  }

  ghost predicate WellOrdered(c: Cap) {
    && (forall sc, i :: 0 <= i < |Candidates(c, sc)| ==>
         Candidates(c, sc)[i] in c.acs && Compatible(sc, c.acs[Candidates(c, sc)[i]].sc))
    && (forall sc, n :: n in c.acs && Compatible(sc, c.acs[n].sc) ==> n in Candidates(c, sc))
    && (forall sc, i, j :: 0 <= i < j < |Candidates(c, sc)| ==>
         Before(sc, c.acs[Candidates(c, sc)[i]], c.acs[Candidates(c, sc)[j]]))
  }

  // ---- reservations already confirmed ----

  function ConfirmedRequests(acrs: seq<ACR>): seq<ReservationRequest> {
    if acrs == [] then []
    else
      var last := acrs[|acrs| - 1];
      ConfirmedRequests(acrs[..|acrs| - 1]) + (if last.status.Reserved? then last.requests else [])
  }

  ghost predicate NamedIn(rs: seq<ReservationRequest>, a: string) {
    exists i :: 0 <= i < |rs| && a in rs[i].reservations
  }

  /** size, once for each mention of a. */
  function Mentions(names: seq<string>, a: string, size: int): int {
    if names == [] then 0
    else Mentions(names[..|names| - 1], a, size) + (if names[|names| - 1] == a then size else 0)
  }

  /** The bytes all requests together ask of AC a, as requested (not PE-aligned). */
  function RawTotal(rs: seq<ReservationRequest>, a: string): int {
    if rs == [] then 0
    else
      var last := rs[|rs| - 1];
      RawTotal(rs[..|rs| - 1], a) + Mentions(last.reservations, a, last.cap.size)
  }

  /** The bytes LVM will really take from a for them. */
  function AlignedTotal(rs: seq<ReservationRequest>, a: string): int {
    if rs == [] then 0
    else
      var last := rs[|rs| - 1];
      AlignedTotal(rs[..|rs| - 1], a) + Mentions(last.reservations, a, AlignPE(last.cap.size))
  }

  /** How often a is mentioned. */
  function MentionCount(rs: seq<ReservationRequest>, a: string): int {
    if rs == [] then 0
    else MentionCount(rs[..|rs| - 1], a) + Mentions(rs[|rs| - 1].reservations, a, 1)
  }

  /** The class of the first request naming a. */
  ghost function FirstClass(rs: seq<ReservationRequest>, a: string): StorageClass
    requires NamedIn(rs, a)
  {
    var init := rs[..|rs| - 1];
    if NamedIn(init, a) then FirstClass(init, a) else rs[|rs| - 1].cap.sc
  }

  /** v knows every reservation and under-counts none of them. */
  ghost predicate Covers(v: View, rs: seq<ReservationRequest>) {
    && (forall a :: NamedIn(rs, a) ==> a in v)
    && (forall a :: a in v && NamedIn(rs, a) ==> v[a].size >= RawTotal(rs, a) && v[a].sc == FirstClass(rs, a))
  }

  ghost predicate KnowsOnly(v: View, rs: seq<ReservationRequest>) {
    forall a :: a in v ==> NamedIn(rs, a)
  }

  ghost predicate Exact(v: View, rs: seq<ReservationRequest>) {
    forall a :: a in v ==> v[a].size == RawTotal(rs, a)
  }

  ghost predicate OneACEach(rs: seq<ReservationRequest>) {
    forall i :: 0 <= i < |rs| ==> |rs[i].reservations| <= 1
  }

  // ---- choosing an AC ----

  /** LVG requests are rounded up to whole extents. */
  function Required(r: CapacityRequest): int {
    if IsLVG(r.sc) then AlignPE(r.size) else r.size
  }

  /** a may serve r: size, storage group, and reservation state all allow it. */
  predicate Admissible(c: Cap, v: View, r: CapacityRequest, a: string) {
    && a in c.acs
    && Required(r) <= c.acs[a].size
    && LabelOf(c.acs[a].group) == r.group
    && (a in v ==> IsLVG(r.sc) && IsLVG(v[a].sc) && v[a].size + Required(r) <= c.acs[a].size)
  }

  function FirstFit(c: Cap, v: View, r: CapacityRequest, cands: seq<string>): Option<string> {
    if cands == [] then None
    else if Admissible(c, v, r, cands[0]) then Some(cands[0])
    else FirstFit(c, v, r, cands[1..])
  }

  function Select(c: Cap, v: View, r: CapacityRequest): Option<string> {
    FirstFit(c, v, r, Candidates(c, r.sc))
  }

  lemma {:induction false} FirstFitIndex(c: Cap, v: View, r: CapacityRequest, cands: seq<string>)
    ensures FirstFit(c, v, r, cands).None? ==> forall i :: 0 <= i < |cands| ==> !Admissible(c, v, r, cands[i])
    ensures FirstFit(c, v, r, cands).Some? ==>
              exists i :: 0 <= i < |cands| && cands[i] == FirstFit(c, v, r, cands).value
                          && Admissible(c, v, r, cands[i]) && forall j :: 0 <= j < i ==> !Admissible(c, v, r, cands[j])
  {
    if cands != [] && !Admissible(c, v, r, cands[0]) {
      FirstFitIndex(c, v, r, cands[1..]);
      forall i | 0 <= i < |cands| && FirstFit(c, v, r, cands).None? ensures !Admissible(c, v, r, cands[i]) {
        if i > 0 { assert cands[i] == cands[1..][i - 1]; }
      }
      if FirstFit(c, v, r, cands).Some? {
        var i :| 0 <= i < |cands[1..]| && cands[1..][i] == FirstFit(c, v, r, cands[1..]).value
                 && Admissible(c, v, r, cands[1..][i]) && forall j :: 0 <= j < i ==> !Admissible(c, v, r, cands[1..][j]);
        assert cands[i + 1] == FirstFit(c, v, r, cands).value;
        forall j | 0 <= j < i + 1 ensures !Admissible(c, v, r, cands[j]) {
          if j > 0 { assert cands[j] == cands[1..][j - 1]; }
        }
      }
    }
  }

  /** Selection refines first fit: the answer is the least admissible AC of a usable class in the
      (class rank, size, name) order, and there is no answer exactly when there is no such AC. */
  lemma SelectIsLeast(c: Cap, v: View, r: CapacityRequest)
    requires WellOrdered(c)
    ensures Select(c, v, r).None? <==>
              forall a :: a in c.acs && Compatible(r.sc, c.acs[a].sc) ==> !Admissible(c, v, r, a)
    ensures Select(c, v, r).Some? ==>
              var s := Select(c, v, r).value;
              && s in c.acs && Compatible(r.sc, c.acs[s].sc) && Admissible(c, v, r, s)
              && forall a :: a in c.acs && Compatible(r.sc, c.acs[a].sc) && Admissible(c, v, r, a) && a != s
                             ==> Before(r.sc, c.acs[s], c.acs[a])
  {
    var cands := Candidates(c, r.sc);
    FirstFitIndex(c, v, r, cands);
    if Select(c, v, r).Some? {
      var i :| 0 <= i < |cands| && cands[i] == Select(c, v, r).value
               && Admissible(c, v, r, cands[i]) && forall j :: 0 <= j < i ==> !Admissible(c, v, r, cands[j]);
      forall a | a in c.acs && Compatible(r.sc, c.acs[a].sc) && Admissible(c, v, r, a) && a != cands[i]
        ensures Before(r.sc, c.acs[cands[i]], c.acs[a])
      {
        var j :| 0 <= j < |cands| && cands[j] == a;
        assert i < j;
      }
    } else {
      forall a | a in c.acs && Compatible(r.sc, c.acs[a].sc) ensures !Admissible(c, v, r, a) {
        var j :| 0 <= j < |cands| && cands[j] == a;
      }
    }
  }

  // ---- one selection, and a run of selections ----

  /** v1 after r was given a. Entries other than a may grow too: several ACs can share one record. */
  ghost predicate Booked(v: View, r: CapacityRequest, a: string, v1: View) {
    if a !in v then v1 == v[a := Rec(r.size, r.sc)]
    else
      && v1.Keys == v.Keys
      && v1[a] == Rec(v[a].size + Required(r), v[a].sc)
      && forall b :: b in v ==> v1[b].sc == v[b].sc && v[b].size <= v1[b].size
  }

  ghost predicate Step(c: Cap, v: View, r: CapacityRequest, a: string, v1: View) {
    Select(c, v, r) == Some(a) && Booked(v, r, a, v1)
  }

  /** views[i] is the book before vols[i] is placed; picks[i] is where it goes. */
  ghost predicate GreedyRun(c: Cap, views: seq<View>, vols: seq<Vol>, picks: seq<string>) {
    && |picks| <= |vols| && |views| == |picks| + 1
    && forall i :: 0 <= i < |picks| ==> Step(c, views[i], vols[i].req, picks[i], views[i + 1])
  }

  ghost predicate Completed(c: Cap, views: seq<View>, vols: seq<Vol>, picks: seq<string>) {
    GreedyRun(c, views, vols, picks) && |picks| == |vols|
  }

  ghost predicate Stuck(c: Cap, views: seq<View>, vols: seq<Vol>, picks: seq<string>) {
    GreedyRun(c, views, vols, picks) && |picks| < |vols|
    && Select(c, views[|picks|], vols[|picks|].req).None?
  }

  lemma RunExtends(c: Cap, views: seq<View>, vols: seq<Vol>, picks: seq<string>, a: string, v: View)
    requires GreedyRun(c, views, vols, picks) && |picks| < |vols|
    requires Step(c, views[|picks|], vols[|picks|].req, a, v)
    ensures GreedyRun(c, views + [v], vols, picks + [a])
  {
    var vs, ps := views + [v], picks + [a];
    forall i | 0 <= i < |ps| ensures Step(c, vs[i], vols[i].req, ps[i], vs[i + 1]) {
      if i < |picks| { assert Step(c, views[i], vols[i].req, picks[i], views[i + 1]); }
    }
  }
}
