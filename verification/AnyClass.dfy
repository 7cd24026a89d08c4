// When first fit is complete for storage class ANY. Its requests try the drive classes in a fixed
// order (node_capacity.go:106-109), and completeness holds for every list of requests exactly when that
// order happens to be an order by size.

module AnyClass {
  import opened Types
  import opened Ordering
  import opened Accounting
  import opened Greedy

  // ---- a run always ends one way or the other ----

  ghost predicate Ends(c: Cap, views: seq<View>, vols: seq<Vol>, picks: seq<string>) {
    Completed(c, views, vols, picks) || Stuck(c, views, vols, picks)
  }

  lemma Bookable(v: View, r: CapacityRequest, a: string) returns (v1: View)
    ensures Booked(v, r, a, v1)
  {
    v1 := if a !in v then v[a := Rec(r.size, r.sc)] else v[a := Rec(v[a].size + Required(r), v[a].sc)];
  }

  lemma RunExists(c: Cap, v: View, vols: seq<Vol>) returns (views: seq<View>, picks: seq<string>)
    ensures Ends(c, views, vols, picks) && views[0] == v
  {
    views, picks := [v], [];
    while |picks| < |vols| && Select(c, views[|picks|], vols[|picks|].req).Some?
      invariant GreedyRun(c, views, vols, picks) && views[0] == v
      decreases |vols| - |picks|
    {
      var r := vols[|picks|].req;
      var a := Select(c, views[|picks|], r).value;
      var next := Bookable(views[|picks|], r, a);
      RunExtends(c, views, vols, picks, a, next);
      views, picks := views + [next], picks + [a];
    }
  }

  // ---- sets and lists ----

  lemma {:induction false} Enumerate(s: set<AC>) returns (q: seq<AC>)
    ensures |q| == |s| && Distinct(q) && forall x :: x in q <==> x in s
  {
    if s == {} {
      q := [];
    } else {
      var x :| x in s;
      var rest := Enumerate(s - {x});
      q := rest + [x];
    }
  }

  lemma {:induction false} DistinctCount<T>(q: seq<T>, s: set<T>)
    requires Distinct(q) && forall x :: x in q ==> x in s
    ensures |q| <= |s|
    ensures |q| == |s| ==> forall x :: x in s ==> x in q
  {
    if q == [] {
    } else {
      var init, last := q[..|q| - 1], q[|q| - 1];
      assert q == init + [last];
      forall x | x in init ensures x in s - {last} {
        var i :| 0 <= i < |init| && init[i] == x;
        assert q[i] != q[|q| - 1];
      }
      DistinctCount(init, s - {last});
    }
  }

  // ---- the list that a descending pair defeats ----

  /** The ACs of y's group that an ANY request of the given size can use. */
  ghost function Usable(pool: set<AC>, group: string, size: int): set<AC> {
    set x | x in pool && Compatible(Any, x.sc) && LabelOf(x.group) == group && size <= x.size
  }

  /** As many requests of `small` bytes as fill up the middle ACs, then one of `large` bytes per large AC. */
  function TwoSizes(middle: nat, all: nat, group: string, small: nat, large: nat): (vols: seq<Vol>)
    requires middle <= all && small <= large
    ensures |vols| == all && AllAny(vols) && SizeSorted(vols) && Distinct(vols)
  {
    seq(all, i requires 0 <= i < all => Vol(i, CapacityRequest("", if i < middle then small else large, Any, group)))
  }

  /** Vol i goes to AC i. */
  ghost function Pairing(vols: seq<Vol>, q: seq<AC>): (f: map<Vol, AC>)
    requires |vols| == |q| && Distinct(vols)
    ensures f.Keys == Elements(vols)
    ensures forall i :: 0 <= i < |q| ==> vols[i] in f && f[vols[i]] == q[i]
  {
    map i | 0 <= i < |q| :: vols[i] := q[i]
  }

  lemma PairingAssigns(pool: set<AC>, vols: seq<Vol>, q: seq<AC>)
    requires |vols| == |q| && Distinct(vols) && Distinct(q)
    requires forall i :: 0 <= i < |q| ==> q[i] in pool && Fits(vols[i].req, q[i])
    ensures Feasible(pool, Elements(vols))
  {
    hide Fits;
    var f := Pairing(vols, q);
    forall v | v in f ensures f[v] in pool && Fits(v.req, f[v]) {
      var i :| 0 <= i < |q| && vols[i] == v;
    }
    forall v, w | v in f && w in f && v != w ensures f[v] != f[w] {
      var i :| 0 <= i < |q| && vols[i] == v;
      var j :| 0 <= j < |q| && vols[j] == w;
      assert i != j;
    }
    assert IsAssignment(pool, Elements(vols), f);
  }

  lemma TwoSizesFeasible(pool: set<AC>, group: string, small: nat, large: nat, vols: seq<Vol>)
    requires small <= large
    requires var all, big := Usable(pool, group, small), Usable(pool, group, large);
             vols == TwoSizes(|all - big|, |all - big| + |big|, group, small, large)
    ensures Feasible(pool, Elements(vols))
  {
    var all, big := Usable(pool, group, small), Usable(pool, group, large);
    var q0 := Enumerate(all - big);
    var q1 := Enumerate(big);
    var q := q0 + q1;
    forall i, j | 0 <= i < j < |q| ensures q[i] != q[j] { SplitDistinct(q0, q1, all - big, big, i, j); }
    forall i | 0 <= i < |q| ensures q[i] in pool && Fits(vols[i].req, q[i]) {
      assert q[i] in if i < |q0| then q0 else q1;
    }
    PairingAssigns(pool, vols, q);
  }

  lemma SplitDistinct(q0: seq<AC>, q1: seq<AC>, s0: set<AC>, s1: set<AC>, i: nat, j: nat)
    requires Distinct(q0) && Distinct(q1) && s0 !! s1
    requires (forall x :: x in q0 ==> x in s0) && forall x :: x in q1 ==> x in s1
    requires i < |q0 + q1| && j < |q0 + q1| && i != j
    ensures (q0 + q1)[i] != (q0 + q1)[j]
  {
    var q := q0 + q1;
    assert q[i] in if i < |q0| then s0 else s1;
    assert q[j] in if j < |q0| then s0 else s1;
  }

  ghost function PickedACs(c: Cap, picks: seq<string>): seq<AC>
    requires forall i :: 0 <= i < |picks| ==> picks[i] in c.acs
  {
    seq(|picks|, i requires 0 <= i < |picks| => c.acs[picks[i]])
  }

  /** Every AC picked for an ANY request was free, fits it, and is picked once. */
  lemma AnyPicks(c: Cap, views: seq<View>, vols: seq<Vol>, picks: seq<string>)
    requires GreedyRun(c, views, vols, picks) && WellOrdered(c) && SelfNamed(c) && AllAny(vols)
    ensures forall i :: 0 <= i < |picks| ==>
              picks[i] in c.acs && c.acs[picks[i]] in Pool(c, views[0]) && Fits(vols[i].req, c.acs[picks[i]])
    ensures Distinct(PickedACs(c, picks))
  {
    PicksAreExclusive(c, views, vols, picks);
    forall i | 0 <= i < |picks|
      ensures picks[i] in c.acs && c.acs[picks[i]] in Pool(c, views[0]) && Fits(vols[i].req, c.acs[picks[i]])
    {
      PickFits(c, views, vols, picks, i);
      DriveAdmissible(c, views[i], vols[i].req, picks[i]);
    }
  }

  lemma PickedOnce(c: Cap, picks: seq<string>, j: nat, k: nat)
    requires (forall i :: 0 <= i < |picks| ==> picks[i] in c.acs) && Distinct(PickedACs(c, picks))
    requires j < k < |picks|
    ensures picks[j] != picks[k]
  {
    assert PickedACs(c, picks)[j] != PickedACs(c, picks)[k];
  }

  /** An AC not picked in the first i steps is still free at step i. */
  lemma {:induction false} UnpickedIsFree(c: Cap, views: seq<View>, vols: seq<Vol>, picks: seq<string>, n: string, i: nat)
    requires GreedyRun(c, views, vols, picks) && WellOrdered(c) && i <= |picks| && AllAny(vols)
    requires n !in views[0] && forall j :: 0 <= j < i ==> picks[j] != n
    ensures n !in views[i]
  {
    if i > 0 {
      UnpickedIsFree(c, views, vols, picks, n, i - 1);
      PickFits(c, views, vols, picks, i - 1);
    }
  }

  /** A completed run of the two-size list must leave the large AC x for a large request and give y to
      a small one - which would have taken x. */
  lemma TwoSizesGetStuck(c: Cap, views: seq<View>, picks: seq<string>, x: AC, y: AC, vols: seq<Vol>)
    requires views != [] && WellOrdered(c) && SelfNamed(c)
    requires x in Pool(c, views[0]) && y in Pool(c, views[0]) && Descends(x, y)
    requires var group, pool := LabelOf(y.group), Pool(c, views[0]);
             var all, big := Usable(pool, group, y.size), Usable(pool, group, x.size);
             vols == TwoSizes(|all - big|, |all - big| + |big|, group, y.size, x.size)
    ensures !Completed(c, views, vols, picks)
  {
    if Completed(c, views, vols, picks) {
      var group, pool := LabelOf(y.group), Pool(c, views[0]);
      var all, big := Usable(pool, group, y.size), Usable(pool, group, x.size);
      var m := |all - big|;
      AnyPicks(c, views, vols, picks);
      var picked := PickedACs(c, picks);
      var k := LargeGetX(picked, m, all, big, x);
      var i := SmallGetY(picked, m, all, big, y, x.size);
      assert picks[k] == x.name && picks[i] == y.name && i < k;
      var j := XWentFirst(c, views, vols, picks, x, y, i);
      PickedOnce(c, picks, j, k);
      assert false;
    }
  }

  lemma LargeGetX(picked: seq<AC>, m: nat, all: set<AC>, big: set<AC>, x: AC) returns (k: nat)
    requires Distinct(picked) && |picked| == m + |big| && x in big
    requires forall i :: m <= i < |picked| ==> picked[i] in big
    ensures m <= k < |picked| && picked[k] == x
  {
    var q := picked[m..];
    forall z | z in q ensures z in big { var i :| 0 <= i < |q| && q[i] == z; assert picked[m + i] == z; }
    DistinctCount(q, big);
    var i :| 0 <= i < |q| && q[i] == x;
    k := m + i;
  }

  lemma SmallGetY(picked: seq<AC>, m: nat, all: set<AC>, big: set<AC>, y: AC, large: int) returns (i: nat)
    requires Distinct(picked) && |picked| == m + |big| && m == |all - big| && big <= all && y in all - big
    requires forall i :: 0 <= i < |picked| ==> picked[i] in all
    requires forall i :: m <= i < |picked| ==> picked[i] in big
    ensures i < m && picked[i] == y
  {
    forall z | z in picked ensures z in all { var j :| 0 <= j < |picked| && picked[j] == z; }
    assert all == (all - big) + big;
    DistinctCount(picked, all);
    i :| 0 <= i < |picked| && picked[i] == y;
  }

  lemma XWentFirst(c: Cap, views: seq<View>, vols: seq<Vol>, picks: seq<string>, x: AC, y: AC, i: nat) returns (j: nat)
    requires GreedyRun(c, views, vols, picks) && WellOrdered(c) && SelfNamed(c) && AllAny(vols)
    requires i < |picks| && picks[i] == y.name && x in Pool(c, views[0])
    requires y.name in c.acs && c.acs[y.name] == y && Fits(vols[i].req, y)
    requires Descends(x, y)
    ensures j < i && picks[j] == x.name
  {
    if exists j :: 0 <= j < i && picks[j] == x.name {
      j :| 0 <= j < i && picks[j] == x.name;
    } else {
      UnpickedIsFree(c, views, vols, picks, x.name, i);
      assert Step(c, views[i], vols[i].req, picks[i], views[i + 1]);
      SelectIsLeast(c, views[i], vols[i].req);
      DriveAdmissible(c, views[i], vols[i].req, x.name);
      BeforeOneWay(x, y);
      assert false;
    }
  }

  lemma BeforeOneWay(x: AC, y: AC)
    requires Compatible(Any, x.sc) && Compatible(Any, y.sc)
    ensures !(Before(Any, x, y) && Before(Any, y, x))
  {
    ACLessTotal(x, y);
  }

  // ---- the exact condition ----

  /** The run of this list ends well exactly when the free drives allow a placement. */
  ghost predicate Decided(c: Cap, v: View, views: seq<View>, vols: seq<Vol>, picks: seq<string>) {
    Completed(c, views, vols, picks) <==> Feasible(Pool(c, v), Elements(vols))
  }

  ghost predicate AnyList(vols: seq<Vol>) {
    AllAny(vols) && SizeSorted(vols) && Distinct(vols)
  }

  /** Every size-sorted list of ANY requests, planned from book v, is placed whenever it can be. */
  ghost predicate AnyIsComplete(c: Cap, v: View) {
    forall views, vols, picks ::
      AnyList(vols) && views != [] && views[0] == v && Ends(c, views, vols, picks) ==> Decided(c, v, views, vols, picks)
  }

  /** For class ANY the planner finds a placement whenever there is one, for every list of requests, if and
      only if in each storage group the free ACs ascend in size along the order of the classes. */
  lemma AnyIsCompleteExactly(c: Cap, v: View)
    requires WellOrdered(c) && SelfNamed(c)
    ensures AnyIsComplete(c, v) <==> ClassesAscend(Pool(c, v))
  {
    hide WellOrdered, Completed, Stuck, Feasible, SelfNamed;
    if ClassesAscend(Pool(c, v)) {
      forall views, vols, picks | AnyList(vols) && views != [] && views[0] == v && Ends(c, views, vols, picks)
        ensures Decided(c, v, views, vols, picks)
      {
        EndsAreRuns(c, views, vols, picks);
        GreedyIsComplete(c, views, vols, picks);
      }
    } else {
      var x, y :| x in Pool(c, v) && y in Pool(c, v) && Descends(x, y);
      var views, vols, picks := DefeatedBy(c, v, x, y);
      assert !Decided(c, v, views, vols, picks);
    }
  }

  lemma EndsAreRuns(c: Cap, views: seq<View>, vols: seq<Vol>, picks: seq<string>)
    requires Ends(c, views, vols, picks)
    ensures GreedyRun(c, views, vols, picks)
  {
  }

  lemma DefeatedBy(c: Cap, v: View, x: AC, y: AC) returns (views: seq<View>, vols: seq<Vol>, picks: seq<string>)
    requires WellOrdered(c) && SelfNamed(c) && x in Pool(c, v) && y in Pool(c, v) && Descends(x, y)
    ensures AnyList(vols) && views != [] && views[0] == v && Ends(c, views, vols, picks)
    ensures !Completed(c, views, vols, picks) && Feasible(Pool(c, v), Elements(vols))
  {
    var group, pool := LabelOf(y.group), Pool(c, v);
    var all, big := Usable(pool, group, y.size), Usable(pool, group, x.size);
    vols := TwoSizes(|all - big|, |all - big| + |big|, group, y.size, x.size);
    TwoSizesFeasible(pool, group, y.size, x.size, vols);
    views, picks := RunExists(c, v, vols);
    TwoSizesGetStuck(c, views, picks, x, y, vols);
  }

  // ---- the smallest failing input ----

  /** One HDD of 10 bytes and one SSD of 5. */
  function HddAndSsd(): Cap {
    Cap(map["h" := AC("h", "n", 10, HDD, "dh", None, false), "s" := AC("s", "n", 5, SSD, "ds", None, false)],
        map[Any := ["h", "s"], HDD := ["h"], SSD := ["s"], HDDLVG := ["h"], SSDLVG := ["s"]])
  }

  lemma HddAndSsdLists(sc: StorageClass)
    ensures var c := HddAndSsd();
            var l := Candidates(c, sc);
            && l == (match sc case Any => ["h", "s"] case HDD => ["h"] case HDDLVG => ["h"]
                     case SSD => ["s"] case SSDLVG => ["s"] case _ => [])
            && (Compatible(sc, c.acs["h"].sc) <==> sc.Any? || sc.HDD? || sc.HDDLVG?)
            && (Compatible(sc, c.acs["s"].sc) <==> sc.Any? || sc.SSD? || sc.SSDLVG?)
            && (sc.Any? ==> Before(sc, c.acs["h"], c.acs["s"]))
  {
    assert "h" != "s";
  }

  lemma HddAndSsdWellOrdered()
    ensures WellOrdered(HddAndSsd()) && SelfNamed(HddAndSsd())
  {
    var c := HddAndSsd();
    assert c.acs.Keys == {"h", "s"};
    forall sc, i | 0 <= i < |Candidates(c, sc)|
      ensures Candidates(c, sc)[i] in c.acs && Compatible(sc, c.acs[Candidates(c, sc)[i]].sc)
    {
      HddAndSsdLists(sc);
    }
    forall sc, n | n in c.acs && Compatible(sc, c.acs[n].sc) ensures n in Candidates(c, sc) {
      HddAndSsdLists(sc);
      if n == "h" { assert Candidates(c, sc)[0] == n; } else { assert Candidates(c, sc)[|Candidates(c, sc)| - 1] == n; }
    }
    forall sc, i, j | 0 <= i < j < |Candidates(c, sc)|
      ensures Before(sc, c.acs[Candidates(c, sc)[i]], c.acs[Candidates(c, sc)[j]])
    {
      HddAndSsdLists(sc);
    }
  }

  /** One HDD of 10 bytes, one SSD of 5, requests of 5 and 10: the small request takes the HDD and the
      planner gives up although each request has a drive of its own size. */
  lemma AnyIsNotComplete()
    ensures WellOrdered(HddAndSsd()) && SelfNamed(HddAndSsd())
    ensures exists views: seq<View>, vols: seq<Vol>, picks: seq<string> ::
              && Stuck(HddAndSsd(), views, vols, picks) && views[0] == map[] && AnyList(vols)
              && Feasible(Pool(HddAndSsd(), map[]), Elements(vols))
  {
    HddAndSsdWellOrdered();
    hide WellOrdered;
    var c := HddAndSsd();
    assert "h" != "s";
    var small, large := CapacityRequest("x", 5, Any, ""), CapacityRequest("y", 10, Any, "");
    var vols := [Vol(0, small), Vol(1, large)];
    var v0: View := map[];
    var v1: View := map["h" := Rec(5, Any)];
    var picks := ["h"];
    assert Select(c, v0, small) == Some("h");
    assert Step(c, v0, small, "h", v1);
    assert Select(c, v1, large).None? by {
      var cands := Candidates(c, Any);
      assert cands[1..] == ["s"] && ["s"][1..] == [];
      assert !Admissible(c, v1, large, "h") && !Admissible(c, v1, large, "s");
    }
    assert Stuck(c, [v0, v1], vols, picks);
    var f := map[vols[0] := c.acs["s"], vols[1] := c.acs["h"]];
    assert IsAssignment(Pool(c, v0), Elements(vols), f) by {
      assert vols[0] in Elements(vols) && vols[1] in Elements(vols);
      assert c.acs["h"] in Pool(c, v0) && c.acs["s"] in Pool(c, v0);
    }
  }
}
