// pkg/base/capacityplanner/node_capacity.go: the per-node planner state. Reservation records are
// heap objects; one record is stored under every AC of its request and updated through any of them.

module NodeCapacityModel {
  import opened Types
  import opened Align
  import opened Ordering
  import opened Accounting

  class ReservedCapacity {
    var size: int
    const sc: StorageClass

    constructor (size: int, sc: StorageClass)
      ensures this.size == size && this.sc == sc
    {
      this.size := size;
      this.sc := sc;
    }
  }

  type Records = map<string, ReservedCapacity>

  ghost function ViewOf(m: Records): (v: View)
    reads m.Values
    ensures v.Keys == m.Keys
  {
    map a | a in m :: Rec(m[a].size, m[a].sc)
  }

  // ---- reservedACs from the confirmed reservations ----

  /** What the inner loop has established after the names r.reservations[..k] of one request. */
  ghost predicate Tallied(m: Records, rc: ReservedCapacity, done: seq<ReservationRequest>,
                          r: ReservationRequest, k: nat)
    requires k <= |r.reservations|
    reads rc, m.Values
  {
    var now := done + [r.(reservations := r.reservations[..k])];
    && rc.size >= r.cap.size && rc.sc == r.cap.sc
    && Covers(ViewOf(m), now) && KnowsOnly(ViewOf(m), now)
  }

  lemma TallyStep(done: seq<ReservationRequest>, r: ReservationRequest, k: nat, a: string)
    requires k < |r.reservations|
    ensures var now := done + [r.(reservations := r.reservations[..k])];
            var next := done + [r.(reservations := r.reservations[..k + 1])];
            && (NamedIn(next, a) <==> NamedIn(now, a) || r.reservations[k] == a)
            && RawTotal(next, a) == RawTotal(now, a) + (if r.reservations[k] == a then r.cap.size else 0)
            && (NamedIn(now, a) ==> FirstClass(next, a) == FirstClass(now, a))
            && (!NamedIn(now, a) && NamedIn(next, a) ==> FirstClass(next, a) == r.cap.sc && RawTotal(now, a) == 0)
  {
    var p, p' := r.(reservations := r.reservations[..k]), r.(reservations := r.reservations[..k + 1]);
    var now, next := done + [p], done + [p'];
    assert now[..|done|] == done && next[..|done|] == done;
    assert p'.reservations[..k] == p.reservations;
    NamedInAppend(done, p, a);
    NamedInAppend(done, p', a);
    assert a in p'.reservations <==> a in p.reservations || r.reservations[k] == a;
    if !NamedIn(now, a) { UnnamedTotal(now, a); }
  }

  lemma NamedInAppend(done: seq<ReservationRequest>, r: ReservationRequest, a: string)
    ensures NamedIn(done + [r], a) <==> NamedIn(done, a) || a in r.reservations
  {
    var rs := done + [r];
    assert rs[|done|] == r;
    if NamedIn(done, a) {
      var i :| 0 <= i < |done| && a in done[i].reservations;
      assert rs[i] == done[i];
    }
    if NamedIn(rs, a) {
      var i :| 0 <= i < |rs| && a in rs[i].reservations;
      if i < |done| { assert rs[i] == done[i]; }
    }
  }

  lemma {:induction false} UnnamedMentions(names: seq<string>, a: string, size: int)
    requires a !in names
    ensures Mentions(names, a, size) == 0
  {
    if names != [] { UnnamedMentions(names[..|names| - 1], a, size); }
  }

  lemma {:induction false} UnnamedTotal(rs: seq<ReservationRequest>, a: string)
    requires !NamedIn(rs, a)
    ensures RawTotal(rs, a) == 0
  {
    if rs != [] {
      var init := rs[..|rs| - 1];
      assert rs == init + [rs[|rs| - 1]];
      NamedInAppend(init, rs[|rs| - 1], a);
      UnnamedTotal(init, a);
      UnnamedMentions(rs[|rs| - 1].reservations, a, rs[|rs| - 1].cap.size);
    }
  }

  ghost predicate Unshared(m: Records) {
    forall a, b :: a in m && b in m && a != b ==> m[a] != m[b]
  }

  /** v1 is v after a was charged at least `size`; no other AC lost anything. */
  ghost predicate Charged(v: View, a: string, size: int, sc: StorageClass, v1: View) {
    if a !in v then v1.Keys == v.Keys + {a} && v1[a].size >= size && v1[a].sc == sc && forall b :: b in v ==> v1[b] == v[b]
    else v1.Keys == v.Keys && v1[a].size >= v[a].size + size
         && forall b :: b in v ==> v1[b].sc == v[b].sc && v1[b].size >= v[b].size
  }

  /** v1 is v after a, and nothing else, was charged exactly `size`. */
  ghost predicate ChargedOnly(v: View, a: string, size: int, sc: StorageClass, v1: View) {
    v1 == v[a := if a in v then Rec(v[a].size + size, v[a].sc) else Rec(size, sc)]
  }

  lemma ChargedCovers(v: View, v1: View, done: seq<ReservationRequest>, r: ReservationRequest, k: nat)
    requires k < |r.reservations| && Charged(v, r.reservations[k], r.cap.size, r.cap.sc, v1)
    requires var now := done + [r.(reservations := r.reservations[..k])]; Covers(v, now) && KnowsOnly(v, now)
    ensures var next := done + [r.(reservations := r.reservations[..k + 1])]; Covers(v1, next) && KnowsOnly(v1, next)
  {
    var now := done + [r.(reservations := r.reservations[..k])];
    var next := done + [r.(reservations := r.reservations[..k + 1])];
    forall b | b in v1 || NamedIn(next, b)
      ensures b in v1 && NamedIn(next, b) && v1[b].size >= RawTotal(next, b) && v1[b].sc == FirstClass(next, b)
    {
      TallyStep(done, r, k, b);
      if b in v { assert v1[b].sc == v[b].sc && v1[b].size >= v[b].size; }
    }
  }

  lemma ChargedExact(v: View, v1: View, done: seq<ReservationRequest>, r: ReservationRequest)
    requires |r.reservations| > 0 && ChargedOnly(v, r.reservations[0], r.cap.size, r.cap.sc, v1)
    requires Covers(v, done) && KnowsOnly(v, done) && Exact(v, done)
    ensures Exact(v1, done + [r.(reservations := r.reservations[..1])])
  {
    EmptyTally(done, r);
    forall b | b in v1 ensures v1[b].size == RawTotal(done + [r.(reservations := r.reservations[..1])], b) {
      TallyStep(done, r, 0, b);
      if b !in v { assert !NamedIn(done, b); UnnamedTotal(done, b); }
    }
  }

  /** The body of the loop over request.Reservations (node_capacity.go:129-136). */
  method Charge(m: Records, rc: ReservedCapacity, a: string) returns (m': Records)
    requires rc.size >= 0
    modifies m.Values
    ensures m' == m || m' == m[a := rc]
    ensures rc.size >= old(rc.size)
    ensures forall size: nat :: size <= old(rc.size) ==> Charged(old(ViewOf(m)), a, size, rc.sc, ViewOf(m'))
    ensures Unshared(m) && rc !in m.Values ==>
              Unshared(m') && ChargedOnly(old(ViewOf(m)), a, old(rc.size), rc.sc, ViewOf(m'))
  {
    if a !in m {
      m' := m[a := rc];
    } else {
      var existed := m[a];
      existed.size := existed.size + rc.size;
      m' := m;
    }
  }

  method Tally(m: Records, rc: ReservedCapacity, ghost done: seq<ReservationRequest>,
               r: ReservationRequest, k: nat) returns (m': Records)
    requires k < |r.reservations|
    requires Tallied(m, rc, done, r, k)
    modifies m.Values
    ensures m' == m || m' == m[r.reservations[k] := rc]
    ensures Tallied(m', rc, done, r, k + 1)
    ensures old(Unshared(m) && k == 0 && rc !in m.Values && rc.size == r.cap.size
                && Covers(ViewOf(m), done) && KnowsOnly(ViewOf(m), done) && Exact(ViewOf(m), done)) ==>
              Unshared(m') && Exact(ViewOf(m'), done + [r.(reservations := r.reservations[..1])])
  {
    ghost var v := ViewOf(m);
    ghost var exact := Unshared(m) && k == 0 && rc !in m.Values && rc.size == r.cap.size
                       && Covers(v, done) && KnowsOnly(v, done) && Exact(v, done);
    m' := Charge(m, rc, r.reservations[k]);
    ChargedCovers(v, ViewOf(m'), done, r, k);
    if exact { ChargedExact(v, ViewOf(m'), done, r); }
  }

  /** The loop nest of node_capacity.go:118-138. */
  method BuildReservedACs(acrs: seq<ACR>) returns (m: Records)
    ensures fresh(m.Values)
    ensures Covers(ViewOf(m), ConfirmedRequests(acrs)) && KnowsOnly(ViewOf(m), ConfirmedRequests(acrs))
    ensures OneACEach(ConfirmedRequests(acrs)) ==> Exact(ViewOf(m), ConfirmedRequests(acrs))
  {
    m := map[];
    assert OneACEach(ConfirmedRequests(acrs)) ==> OneACEach(ConfirmedRequests(acrs[..0]));
    for i := 0 to |acrs|
      invariant fresh(m.Values)
      invariant Covers(ViewOf(m), ConfirmedRequests(acrs[..i])) && KnowsOnly(ViewOf(m), ConfirmedRequests(acrs[..i]))
      invariant OneACEach(ConfirmedRequests(acrs[..i])) ==> Unshared(m) && Exact(ViewOf(m), ConfirmedRequests(acrs[..i]))
    {
      var acr := acrs[i];
      ghost var before := ConfirmedRequests(acrs[..i]);
      assert acrs[..i + 1][..i] == acrs[..i];
      if !acr.status.Reserved? {
        assert ConfirmedRequests(acrs[..i + 1]) == before + [] == before;
        continue;
      }
      assert ConfirmedRequests(acrs[..i + 1]) == before + acr.requests;
      assert before + acr.requests[..0] == before;
      for j := 0 to |acr.requests|
        invariant fresh(m.Values)
        invariant Covers(ViewOf(m), before + acr.requests[..j]) && KnowsOnly(ViewOf(m), before + acr.requests[..j])
        invariant OneACEach(before + acr.requests[..j]) ==> Unshared(m) && Exact(ViewOf(m), before + acr.requests[..j])
      {
        ghost var done := before + acr.requests[..j];
        OneACPrefix(done, acr.requests[j]);
        m := AddRequest(m, done, acr.requests[j]);
        assert before + acr.requests[..j + 1] == before + acr.requests[..j] + [acr.requests[j]];
      }
      assert acr.requests[..|acr.requests|] == acr.requests;
    }
    assert acrs[..|acrs|] == acrs;
  }

  /** The loop over request.Reservations. */
  method TallyAll(m: Records, rc: ReservedCapacity, ghost done: seq<ReservationRequest>, r: ReservationRequest)
    returns (m': Records)
    requires r.reservations != [] && Tallied(m, rc, done, r, 0)
    modifies m.Values, rc
    ensures m'.Values <= m.Values + {rc}
    ensures Tallied(m', rc, done, r, |r.reservations|)
    ensures (|r.reservations| == 1 && Unshared(m) && rc !in m.Values && old(rc.size) == r.cap.size
             && old(Covers(ViewOf(m), done) && KnowsOnly(ViewOf(m), done) && Exact(ViewOf(m), done))) ==>
              Unshared(m') && Exact(ViewOf(m'), done + [r.(reservations := r.reservations[..1])])
  {
    hide RawTotal, FirstClass, NamedIn, Exact, Covers, KnowsOnly;
    ghost var exact := Unshared(m) && rc !in m.Values && rc.size == r.cap.size && Covers(ViewOf(m), done)
                       && KnowsOnly(ViewOf(m), done) && Exact(ViewOf(m), done);
    m' := Tally(m, rc, done, r, 0);
    for k := 1 to |r.reservations|
      invariant m'.Values <= m.Values + {rc}
      invariant Tallied(m', rc, done, r, k)
      invariant k == 1 && exact ==> Unshared(m') && Exact(ViewOf(m'), done + [r.(reservations := r.reservations[..1])])
    {
      m' := Tally(m', rc, done, r, k);
    }
  }

  method AddRequest(m: Records, ghost done: seq<ReservationRequest>, r: ReservationRequest) returns (m': Records)
    requires Covers(ViewOf(m), done) && KnowsOnly(ViewOf(m), done)
    modifies m.Values
    ensures fresh(m'.Values - m.Values)
    ensures Covers(ViewOf(m'), done + [r]) && KnowsOnly(ViewOf(m'), done + [r])
    ensures |r.reservations| <= 1 && Unshared(m) && old(Exact(ViewOf(m), done)) ==>
              Unshared(m') && Exact(ViewOf(m'), done + [r])
  {
    var rc := new ReservedCapacity(r.cap.size, r.cap.sc);
    ghost var v := ViewOf(m);
    assert Tallied(m, rc, done, r, 0) by { EmptyTally(done, r); }
    WholeRequest(r);
    if r.reservations == [] {
      m' := m;
      assert Exact(v, done) ==> Exact(v, done + [r]) by { EmptyTally(done, r); }
    } else {
      m' := TallyAll(m, rc, done, r);
    }
  }

  lemma WholeRequest(r: ReservationRequest)
    ensures r.(reservations := r.reservations[..|r.reservations|]) == r
  {
    assert r.reservations[..|r.reservations|] == r.reservations;
  }

  lemma OneACPrefix(done: seq<ReservationRequest>, r: ReservationRequest)
    ensures OneACEach(done + [r]) <==> OneACEach(done) && |r.reservations| <= 1
  {
    var rs := done + [r];
    assert rs[|done|] == r;
    assert forall i :: 0 <= i < |done| ==> rs[i] == done[i];
  }

  lemma EmptyTally(done: seq<ReservationRequest>, r: ReservationRequest)
    ensures var now := done + [r.(reservations := r.reservations[..0])];
            forall a :: (NamedIn(now, a) <==> NamedIn(done, a)) && RawTotal(now, a) == RawTotal(done, a)
                        && (NamedIn(done, a) ==> FirstClass(now, a) == FirstClass(done, a))
  {
    var p := r.(reservations := r.reservations[..0]);
    var now := done + [p];
    assert now[..|done|] == done;
    forall a ensures (NamedIn(now, a) <==> NamedIn(done, a)) && RawTotal(now, a) == RawTotal(done, a)
                     && (NamedIn(done, a) ==> FirstClass(now, a) == FirstClass(done, a))
    {
      NamedInAppend(done, p, a);
    }
  }

  // ---- candidate lists ----

  /** FilterACList applied twice (node_capacity.go:72-82): node, then taint. */
  method EligibleACs(acs: seq<AC>, node: string) returns (r: seq<AC>)
    requires UniqueNames(acs)
    ensures UniqueNames(r) && forall x :: x in r <==> x in acs && x.nodeId == node && !x.tainted
  {
    r := [];
    for i := 0 to |acs|
      invariant UniqueNames(r) && forall x :: x in r <==> x in acs[..i] && x.nodeId == node && !x.tainted
    {
      assert acs[..i + 1] == acs[..i] + [acs[i]];
      if acs[i].nodeId == node && !acs[i].tainted {
        forall k | 0 <= k < |r| ensures r[k].name != acs[i].name {
          assert r[k] in acs[..i];
          var j :| 0 <= j < i && acs[j] == r[k];
        }
        r := r + [acs[i]];
      }
    }
    assert acs[..|acs|] == acs;
  }

  /** buildACMap. */
  method BuildACMap(acs: seq<AC>) returns (m: map<string, AC>)
    requires UniqueNames(acs)
    ensures forall n :: n in m ==> m[n] in acs && m[n].name == n
    ensures forall x :: x in acs ==> x.name in m && m[x.name] == x
  {
    m := map[];
    for i := 0 to |acs|
      invariant forall n :: n in m ==> m[n] in acs[..i] && m[n].name == n
      invariant forall x :: x in acs[..i] ==> x.name in m && m[x.name] == x
    {
      forall x | x in acs[..i] ensures x.name != acs[i].name {
        var j :| 0 <= j < i && acs[j] == x;
      }
      assert acs[..i + 1] == acs[..i] + [acs[i]];
      m := m[acs[i].name := acs[i]];
    }
    assert acs[..|acs|] == acs;
  }

  function Get(order: map<StorageClass, seq<string>>, sc: StorageClass): seq<string> {
    if sc in order then order[sc] else []
  }

  lemma NamesAppend(a: seq<AC>, b: seq<AC>)
    ensures Names(a + b) == Names(a) + Names(b)
  {
  }

  lemma OfClassStep(s: seq<AC>, i: nat, sc: StorageClass)
    requires i < |s|
    ensures Names(OfClass(s[..i + 1], sc)) == Names(OfClass(s[..i], sc)) + (if s[i].sc == sc then [s[i].name] else [])
  {
    assert s[..i + 1][..i] == s[..i];
    var one := if s[i].sc == sc then [s[i]] else [];
    NamesAppend(OfClass(s[..i], sc), one);
  }

  /** One list per class (node_capacity.go:98-104). */
  method BuildClassLists(s: seq<AC>) returns (order: map<StorageClass, seq<string>>)
    ensures forall sc :: Get(order, sc) == Names(OfClass(s, sc))
  {
    order := map[];
    for i := 0 to |s|
      invariant forall sc :: Get(order, sc) == Names(OfClass(s[..i], sc))
    {
      ghost var before := order;
      order := order[s[i].sc := Get(order, s[i].sc) + [s[i].name]];
      forall sc ensures Get(order, sc) == Names(OfClass(s[..i + 1], sc)) {
        OfClassStep(s, i, sc);
        assert Get(order, sc) == Get(before, sc) + (if s[i].sc == sc then [s[i].name] else []);
      }
    }
    assert s[..|s|] == s;
  }

  lemma OrderForNames(s: seq<AC>, sc: StorageClass)
    ensures Names(OrderFor(s, sc)) ==
              match sc
              case Any => Names(OfClass(s, Any)) + Names(OfClass(s, HDD)) + Names(OfClass(s, SSD)) + Names(OfClass(s, NVMe))
              case HDDLVG => Names(OfClass(s, HDDLVG)) + Names(OfClass(s, HDD))
              case SSDLVG => Names(OfClass(s, SSDLVG)) + Names(OfClass(s, SSD))
              case NVMeLVG => Names(OfClass(s, NVMeLVG)) + Names(OfClass(s, NVMe))
              case _ => Names(OfClass(s, sc))
  {
    match sc
    case Any =>
      NamesAppend(OfClass(s, Any), OfClass(s, HDD));
      NamesAppend(OfClass(s, Any) + OfClass(s, HDD), OfClass(s, SSD));
      NamesAppend(OfClass(s, Any) + OfClass(s, HDD) + OfClass(s, SSD), OfClass(s, NVMe));
    case HDDLVG => NamesAppend(OfClass(s, HDDLVG), OfClass(s, HDD));
    case SSDLVG => NamesAppend(OfClass(s, SSDLVG), OfClass(s, SSD));
    case NVMeLVG => NamesAppend(OfClass(s, NVMeLVG), OfClass(s, NVMe));
    case _ =>
  }

  /** Then the lists of ANY and of the LVG classes are extended (node_capacity.go:106-114). */
  method BuildOrder(s: seq<AC>) returns (order: map<StorageClass, seq<string>>)
    ensures forall sc :: Get(order, sc) == Names(OrderFor(s, sc))
  {
    hide OrderFor, OfClass, Names;
    order := BuildClassLists(s);
    order := order[Any := Get(order, Any) + Get(order, HDD)];
    order := order[Any := Get(order, Any) + Get(order, SSD)];
    order := order[Any := Get(order, Any) + Get(order, NVMe)];
    order := order[HDDLVG := Get(order, HDDLVG) + Get(order, HDD)];
    order := order[SSDLVG := Get(order, SSDLVG) + Get(order, SSD)];
    order := order[NVMeLVG := Get(order, NVMeLVG) + Get(order, NVMe)];
    forall sc { OrderForNames(s, sc); }
  }

  lemma OrderDescribes(c: Cap, s: seq<AC>, acs: seq<AC>, node: string)
    requires StrictlySorted(s) && UniqueNames(s)
    requires forall x :: x in s <==> x in acs && Eligible(x, node)
    requires forall n :: n in c.acs ==> c.acs[n] in s && c.acs[n].name == n
    requires forall x :: x in s ==> x.name in c.acs && c.acs[x.name] == x
    requires forall sc :: Candidates(c, sc) == Names(OrderFor(s, sc))
    ensures Describes(c, acs, node)
  {
    forall sc
      ensures forall i :: 0 <= i < |Candidates(c, sc)| ==>
                Candidates(c, sc)[i] in c.acs && c.acs[Candidates(c, sc)[i]] == OrderFor(s, sc)[i]
                && Compatible(sc, OrderFor(s, sc)[i].sc)
      ensures forall n :: n in c.acs && Compatible(sc, c.acs[n].sc) ==> n in Candidates(c, sc)
      ensures forall i, j :: 0 <= i < j < |Candidates(c, sc)| ==>
                Before(sc, c.acs[Candidates(c, sc)[i]], c.acs[Candidates(c, sc)[j]])
    {
      OrderForIsOrder(s, sc);
      var o := OrderFor(s, sc);
      forall i | 0 <= i < |o| ensures o[i].name in c.acs && c.acs[o[i].name] == o[i] && Compatible(sc, o[i].sc) {
        assert o[i] in o;
      }
      forall n | n in c.acs && Compatible(sc, c.acs[n].sc) ensures n in Candidates(c, sc) {
        assert c.acs[n] in o;
        var i :| 0 <= i < |o| && o[i] == c.acs[n];
        assert Candidates(c, sc)[i] == n;
      }
    }
  }

  // ---- the object ----

  class NodeCapacity {
    const node: string
    const acs: map<string, AC>
    const acsOrder: map<StorageClass, seq<string>>
    var reservedACs: Records

    constructor (node: string, acs: map<string, AC>, acsOrder: map<StorageClass, seq<string>>, reservedACs: Records)
      ensures this.node == node && this.acs == acs && this.acsOrder == acsOrder && this.reservedACs == reservedACs
    {
      this.node := node;
      this.acs := acs;
      this.acsOrder := acsOrder;
      this.reservedACs := reservedACs;
    }

    ghost function Repr(): set<object>
      reads this
    {
      {this} + reservedACs.Values
    }

    function Cap(): Accounting.Cap {
      Accounting.Cap(acs, acsOrder)
    }

    ghost function View(): Accounting.View
      reads this, reservedACs.Values
    {
      ViewOf(reservedACs)
    }

    /** node_capacity.go:148-191. */
    method SelectACForVolume(vol: Vol) returns (found: Option<string>)
      modifies this, reservedACs.Values
      ensures found == Select(Cap(), old(View()), vol.req)
      ensures found.None? ==> reservedACs == old(reservedACs) && View() == old(View())
      ensures found.Some? ==> Booked(old(View()), vol.req, found.value, View())
      ensures found.Some? ==>
                && View().Keys == old(View()).Keys + {found.value}
                && View()[found.value].size ==
                     if found.value !in old(View()) then vol.req.size
                     else old(View())[found.value].size + if IsLVG(vol.req.sc) then AlignPE(vol.req.size) else vol.req.size
      ensures fresh(reservedACs.Values - old(reservedACs.Values))
    {
      var requiredSize := vol.req.size;
      if IsLVG(vol.req.sc) {
        requiredSize := AlignPE(vol.req.size);
      }
      var cands := Candidates(Cap(), vol.req.sc);
      for i := 0 to |cands|
        invariant FirstFit(Cap(), View(), vol.req, cands) == FirstFit(Cap(), View(), vol.req, cands[i..])
      {
        assert cands[i..][0] == cands[i] && cands[i..][1..] == cands[i + 1..];
        var ac := cands[i];
        if ac in acs && requiredSize <= acs[ac].size && LabelOf(acs[ac].group) == vol.req.group {
          if ac !in reservedACs {
            var rc := new ReservedCapacity(vol.req.size, vol.req.sc);
            reservedACs := reservedACs[ac := rc];
            return Some(ac);
          }
          if !IsLVG(vol.req.sc) { continue; }
          var reservation := reservedACs[ac];
          if !IsLVG(reservation.sc) { continue; }
          if reservation.size + requiredSize <= acs[ac].size {
            reservation.size := reservation.size + requiredSize;
            return Some(ac);
          }
        }
      }
      return None;
    }
  }

  /** node_capacity.go:65-146. */
  method NewNodeCapacity(node: string, acs: seq<AC>, acrs: seq<ACR>) returns (nc: NodeCapacity?)
    requires UniqueNames(acs)
    ensures nc == null <==> acs == []
    ensures nc != null ==>
              && fresh(nc) && fresh(nc.reservedACs.Values) && nc.node == node
              && Describes(nc.Cap(), acs, node)
              && Covers(nc.View(), ConfirmedRequests(acrs)) && KnowsOnly(nc.View(), ConfirmedRequests(acrs))
              && (OneACEach(ConfirmedRequests(acrs)) ==> Exact(nc.View(), ConfirmedRequests(acrs)))
  {
    if acs == [] { return null; }
    var eligible := EligibleACs(acs, node);
    var sorted := SortACs(eligible);
    var acsOrder := BuildOrder(sorted);
    var acMap := BuildACMap(sorted);
    OrderDescribes(Accounting.Cap(acMap, acsOrder), sorted, acs, node);
    var reserved := BuildReservedACs(acrs);
    nc := new NodeCapacity(node, acMap, acsOrder, reserved);
  }
}
