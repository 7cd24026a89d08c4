// What a selection run on one node guarantees: the chosen ACs really fit and are not shared, and a
// run of drive requests succeeds whenever any placement exists.

module Greedy {
  import opened Types
  import opened Align
  import opened Ordering
  import opened Accounting

  // ---- safety ----

  lemma {:induction false} ViewsGrow(c: Cap, views: seq<View>, vols: seq<Vol>, picks: seq<string>, i: nat, j: nat, a: string)
    requires GreedyRun(c, views, vols, picks) && i <= j <= |picks| && a in views[i]
    ensures a in views[j] && views[j][a].sc == views[i][a].sc
  {
    if i < j {
      ViewsGrow(c, views, vols, picks, i, j - 1, a);
      assert Step(c, views[j - 1], vols[j - 1].req, picks[j - 1], views[j]);
    }
  }

  lemma PickFits(c: Cap, views: seq<View>, vols: seq<Vol>, picks: seq<string>, i: nat)
    requires GreedyRun(c, views, vols, picks) && WellOrdered(c) && i < |picks|
    ensures picks[i] in c.acs && Compatible(vols[i].req.sc, c.acs[picks[i]].sc)
    ensures Admissible(c, views[i], vols[i].req, picks[i])
    ensures Booked(views[i], vols[i].req, picks[i], views[i + 1])
  {
    assert Step(c, views[i], vols[i].req, picks[i], views[i + 1]);
    SelectIsLeast(c, views[i], vols[i].req);
  }

  /** Two volumes share an AC only if both are LVG volumes; an AC already reserved is taken only
      by an LVG volume and only if it was reserved for LVG. */
  lemma PicksAreExclusive(c: Cap, views: seq<View>, vols: seq<Vol>, picks: seq<string>)
    requires GreedyRun(c, views, vols, picks) && WellOrdered(c)
    ensures forall i, j :: 0 <= i < j < |picks| && picks[i] == picks[j] ==> IsLVG(vols[i].req.sc) && IsLVG(vols[j].req.sc)
    ensures forall i :: 0 <= i < |picks| && picks[i] in views[0] ==> IsLVG(vols[i].req.sc) && IsLVG(views[0][picks[i]].sc)
  {
    forall i, j | 0 <= i < j < |picks| && picks[i] == picks[j]
      ensures IsLVG(vols[i].req.sc) && IsLVG(vols[j].req.sc)
    {
      PickFits(c, views, vols, picks, i);
      PickFits(c, views, vols, picks, j);
      ViewsGrow(c, views, vols, picks, i + 1, j, picks[i]);
    }
    forall i | 0 <= i < |picks| && picks[i] in views[0]
      ensures IsLVG(vols[i].req.sc) && IsLVG(views[0][picks[i]].sc)
    {
      PickFits(c, views, vols, picks, i);
      ViewsGrow(c, views, vols, picks, 0, i, picks[i]);
    }
  }

  // ---- completeness for drive requests ----

  predicate Fits(r: CapacityRequest, ac: AC) {
    && ServesClass(ac.sc, r.sc) && LabelOf(ac.group) == r.group
    && (if IsLVG(r.sc) then AlignPE(r.size) else r.size) <= ac.size
  }

  ghost predicate IsAssignment(pool: set<AC>, vols: set<Vol>, f: map<Vol, AC>) {
    && f.Keys == vols
    && (forall v :: v in f ==> f[v] in pool && Fits(v.req, f[v]))
    && (forall v, w :: v in f && w in f && v != w ==> f[v] != f[w])
  }

  /** Some injective placement of all volumes exists. */
  ghost predicate Feasible(pool: set<AC>, vols: set<Vol>) {
    exists f :: IsAssignment(pool, vols, f)
  }

  ghost predicate AllPlain(vols: seq<Vol>) {
    forall i :: 0 <= i < |vols| ==> IsPlain(vols[i].req.sc)
  }

  ghost predicate AllAny(vols: seq<Vol>) {
    forall i :: 0 <= i < |vols| ==> vols[i].req.sc.Any?
  }

  /** An AC that serves one request of such a set is of a usable class for every request it is tried for. */
  ghost predicate OfOneKind(vols: set<Vol>) {
    || (forall v :: v in vols ==> IsPlain(v.req.sc))
    || (forall v :: v in vols ==> v.req.sc.Any?)
  }

  /** In every storage group the order in which ANY requests try the ACs is an order by size. */
  ghost predicate ClassesAscend(pool: set<AC>) {
    forall x, y :: x in pool && y in pool ==> !Descends(x, y)
  }

  /** x is tried for ANY before the smaller y, and both serve the same group. */
  predicate Descends(x: AC, y: AC) {
    && Compatible(Any, x.sc) && Compatible(Any, y.sc) && LabelOf(x.group) == LabelOf(y.group)
    && Before(Any, x, y) && 0 <= y.size < x.size
  }

  /** The lists for which smallest first, first fit is known to find a placement whenever there is one. */
  ghost predicate Predictable(vols: seq<Vol>, pool: set<AC>) {
    AllPlain(vols) || (AllAny(vols) && ClassesAscend(pool))
  }

  ghost predicate SizeSorted(vols: seq<Vol>) {
    forall i, j :: 0 <= i < j < |vols| ==> vols[i].req.size <= vols[j].req.size
  }

  /** a is the smallest AC of the pool that fits v. */
  ghost predicate SmallestFit(pool: set<AC>, v: Vol, a: AC) {
    a in pool && Fits(v.req, a) && forall b :: b in pool && Fits(v.req, b) ==> a.size <= b.size
  }

  lemma FitsElsewhere(v: Vol, w: Vol, a: AC, b: AC)
    requires OfOneKind({v, w}) && Fits(v.req, a) && Fits(w.req, a) && Fits(v.req, b) && a.size <= b.size
    ensures Fits(w.req, b)
  {
    assert v in {v, w} && w in {v, w};
  }

  lemma AssignRest(pool: set<AC>, vols: set<Vol>, v: Vol, a: AC, f: map<Vol, AC>) returns (g: map<Vol, AC>)
    requires IsAssignment(pool, vols, f) && v in vols && SmallestFit(pool, v, a) && OfOneKind(vols)
    requires forall w :: w in vols ==> v.req.size <= w.req.size
    ensures IsAssignment(pool - {a}, vols - {v}, g)
  {
    if w :| w in f && f[w] == a && w != v {
      // w moves to v's AC, which is at least as large as a and usable for the same class and group
      FitsElsewhere(v, w, a, f[v]);
      g := (f - {v})[w := f[v]];
    } else {
      g := f - {v};
    }
  }

  lemma AssignFirst(pool: set<AC>, vols: set<Vol>, v: Vol, a: AC, g: map<Vol, AC>)
    requires IsAssignment(pool - {a}, vols - {v}, g) && v in vols && a in pool && Fits(v.req, a)
    ensures IsAssignment(pool, vols, g[v := a])
  {
    var f := g[v := a];
    assert f.Keys == vols;
    forall x, y | x in f && y in f && x != y ensures f[x] != f[y] {
      if x != v { assert g[x] in pool - {a}; }
      if y != v { assert g[y] in pool - {a}; }
    }
  }

  /** The exchange step: giving the smallest volume its smallest fit loses nothing. */
  lemma ExchangeStep(pool: set<AC>, vols: set<Vol>, v: Vol, a: AC)
    requires v in vols && SmallestFit(pool, v, a) && OfOneKind(vols)
    requires forall w :: w in vols ==> v.req.size <= w.req.size
    ensures Feasible(pool, vols) <==> Feasible(pool - {a}, vols - {v})
  {
    if Feasible(pool, vols) {
      var f :| IsAssignment(pool, vols, f);
      var g := AssignRest(pool, vols, v, a, f);
    }
    if Feasible(pool - {a}, vols - {v}) {
      var g :| IsAssignment(pool - {a}, vols - {v}, g);
      AssignFirst(pool, vols, v, a, g);
    }
  }

  ghost function Pool(c: Cap, v: View): set<AC> {
    set n | n in c.acs && n !in v :: c.acs[n]
  }

  ghost function Elements(vols: seq<Vol>): set<Vol> {
    set i | 0 <= i < |vols| :: vols[i]
  }

  ghost predicate SelfNamed(c: Cap) {
    forall n :: n in c.acs ==> c.acs[n].name == n
  }

  lemma DriveAdmissible(c: Cap, v: View, r: CapacityRequest, a: string)
    requires !IsLVG(r.sc) && a in c.acs && SelfNamed(c)
    ensures Compatible(r.sc, c.acs[a].sc) && Admissible(c, v, r, a) <==> c.acs[a] in Pool(c, v) && Fits(r, c.acs[a])
  {
  }

  lemma DriveSelect(c: Cap, v: View, r: Vol)
    requires !IsLVG(r.req.sc) && WellOrdered(c) && SelfNamed(c)
    requires r.req.sc.Any? ==> ClassesAscend(Pool(c, v))
    ensures Select(c, v, r.req).None? ==> forall x :: x in Pool(c, v) ==> !Fits(r.req, x)
    ensures Select(c, v, r.req).Some? ==>
              Select(c, v, r.req).value in c.acs && SmallestFit(Pool(c, v), r, c.acs[Select(c, v, r.req).value])
  {
    SelectIsLeast(c, v, r.req);
    if Select(c, v, r.req).Some? { DriveAdmissible(c, v, r.req, Select(c, v, r.req).value); }
    forall x | x in Pool(c, v) && Fits(r.req, x)
      ensures Select(c, v, r.req).Some? && Select(c, v, r.req).value in c.acs
              && c.acs[Select(c, v, r.req).value].size <= x.size
    {
      DriveAdmissible(c, v, r.req, x.name);
      if r.req.sc.Any? { assert !Descends(c.acs[Select(c, v, r.req).value], x); }
    }
  }

  lemma {:induction false} FeasibleAlongRun(c: Cap, views: seq<View>, vols: seq<Vol>, picks: seq<string>, k: nat)
    requires GreedyRun(c, views, vols, picks) && WellOrdered(c) && SelfNamed(c)
    requires Predictable(vols, Pool(c, views[0])) && SizeSorted(vols) && Distinct(vols) && k <= |picks|
    ensures Pool(c, views[k]) <= Pool(c, views[0])
    ensures Feasible(Pool(c, views[0]), Elements(vols)) <==> Feasible(Pool(c, views[k]), Elements(vols[k..]))
  {
    if k == 0 {
      assert vols[0..] == vols;
    } else {
      FeasibleAlongRun(c, views, vols, picks, k - 1);
      var v := vols[k - 1];
      PickFits(c, views, vols, picks, k - 1);
      assert ClassesAscend(Pool(c, views[0])) ==> ClassesAscend(Pool(c, views[k - 1]));
      DriveSelect(c, views[k - 1], v);
      assert Step(c, views[k - 1], v.req, picks[k - 1], views[k]);
      var a := c.acs[picks[k - 1]];
      RestElements(vols, k - 1);
      assert Pool(c, views[k]) == Pool(c, views[k - 1]) - {a};
      RestOfOneKind(vols, k - 1);
      ExchangeStep(Pool(c, views[k - 1]), Elements(vols[k - 1..]), v, a);
    }
  }

  lemma RestOfOneKind(vols: seq<Vol>, k: nat)
    requires AllPlain(vols) || AllAny(vols)
    requires k <= |vols|
    ensures OfOneKind(Elements(vols[k..]))
  {
  }

  lemma RestElements(vols: seq<Vol>, k: nat)
    requires Distinct(vols) && k < |vols|
    ensures vols[k] in Elements(vols[k..]) && Elements(vols[k + 1..]) == Elements(vols[k..]) - {vols[k]}
    ensures SizeSorted(vols) ==> forall w :: w in Elements(vols[k..]) ==> vols[k].req.size <= w.req.size
  {
    var s, t := vols[k..], vols[k + 1..];
    assert s[0] == vols[k];
    forall x ensures x in Elements(t) <==> x in Elements(s) && x != vols[k] {
      if x in Elements(t) { var i :| 0 <= i < |t| && t[i] == x; assert s[i + 1] == x && vols[k + 1 + i] == x; }
      if x in Elements(s) && x != vols[k] { var i :| 0 <= i < |s| && s[i] == x; assert t[i - 1] == x; }
    }
    if SizeSorted(vols) {
      forall w | w in Elements(s) ensures vols[k].req.size <= w.req.size {
        var i :| 0 <= i < |s| && s[i] == w;
        assert w == vols[k + i];
      }
    }
  }

  lemma Unplaceable(pool: set<AC>, vols: set<Vol>, v: Vol)
    requires v in vols && forall x :: x in pool ==> !Fits(v.req, x)
    ensures !Feasible(pool, vols)
  {
    forall f: map<Vol, AC> ensures !IsAssignment(pool, vols, f) {
      if v in f && f[v] in pool { assert !Fits(v.req, f[v]); }
    }
  }

  /** Smallest request to smallest fitting drive finds a placement exactly when one exists. */
  lemma GreedyIsComplete(c: Cap, views: seq<View>, vols: seq<Vol>, picks: seq<string>)
    requires GreedyRun(c, views, vols, picks) && WellOrdered(c) && SelfNamed(c)
    requires Predictable(vols, Pool(c, views[0])) && SizeSorted(vols) && Distinct(vols)
    ensures Completed(c, views, vols, picks) ==> Feasible(Pool(c, views[0]), Elements(vols))
    ensures Stuck(c, views, vols, picks) ==> !Feasible(Pool(c, views[0]), Elements(vols))
  {
    var k := |picks|;
    FeasibleAlongRun(c, views, vols, picks, k);
    if Completed(c, views, vols, picks) {
      assert vols[k..] == [];
      assert IsAssignment(Pool(c, views[k]), Elements(vols[k..]), map[]);
    }
    if Stuck(c, views, vols, picks) {
      DriveSelect(c, views[k], vols[k]);
      RestElements(vols, k);
      Unplaceable(Pool(c, views[k]), Elements(vols[k..]), vols[k]);
    }
  }
}
