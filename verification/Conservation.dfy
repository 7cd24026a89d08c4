// Runs of the store: bytes are conserved along clean runs and drift by an exact amount otherwise.

module Conservation {
  import opened Types
  import opened Align
  import opened Lifecycle
  import opened Stores
  import opened Ledger

  // ---- whole runs ----

  ghost predicate StepTo(s: Store, e: Event, t: Store) {
    Keyed(s) && Enabled(s, e) && t == Apply(s, e)
  }

  /** ss lists the states of a run whose steps are es. */
  ghost predicate Trace(ss: seq<Store>, es: seq<Event>) {
    |ss| == |es| + 1 && Shape(ss[0]) && forall k :: 0 <= k < |es| ==> StepTo(ss[k], es[k], ss[k + 1])
  }

  ghost predicate CleanStep(s: Store, e: Event, t: Store) {
    StepTo(s, e, t) && Clean(s, e)
  }

  ghost predicate CleanTrace(ss: seq<Store>, es: seq<Event>) {
    Trace(ss, es) && Balanced(ss[0]) && forall k :: 0 <= k < |es| ==> CleanStep(ss[k], es[k], ss[k + 1])
  }

  lemma {:induction false} TraceKeepsShape(ss: seq<Store>, es: seq<Event>, n: nat)
    requires Trace(ss, es) && n < |ss|
    ensures Shape(ss[n])
  {
    hide Shape, Apply, Enabled, Keyed;
    if n > 0 {
      TraceKeepsShape(ss, es, n - 1);
      assert StepTo(ss[n - 1], es[n - 1], ss[n]);
      StepKeepsShape(ss[n - 1], es[n - 1]);
    }
  }

  /** Conservation: along any run of clean steps, what an AC offers plus what the volumes on its LVG
      hold is the size of the LVG, in every state and for every LVG. */
  lemma {:induction false} BytesAreConserved(ss: seq<Store>, es: seq<Event>, n: nat)
    requires CleanTrace(ss, es) && n < |ss|
    ensures Shape(ss[n]) && Balanced(ss[n])
  {
    hide Shape, Balanced, Apply, Enabled, Clean;
    TraceKeepsShape(ss, es, n);
    if n > 0 {
      BytesAreConserved(ss, es, n - 1);
      assert CleanStep(ss[n - 1], es[n - 1], ss[n]);
      StepBalancesIffClean(ss[n - 1], es[n - 1]);
    }
  }

  /** The bytes gained or lost by l since it came into being, read off the steps. */
  ghost function Drift(ss: seq<Store>, es: seq<Event>, l: string, n: nat): int
    requires Trace(ss, es) && n < |ss|
  {
    if n == 0 then (if (exists a :: ACAt(ss[0], l, a)) && Live(ss[0], l) then Balance(ss[0], l) - ss[0].lvgs[l].size else 0)
    else
      assert StepTo(ss[n - 1], es[n - 1], ss[n]);
      (if Live(ss[n - 1], l) then Drift(ss, es, l, n - 1) else 0) + Effect(ss[n - 1], es[n - 1], l)
  }

  /** Without any assumption on the steps, the accounts are off by exactly the drift. */
  lemma {:induction false} DriftIsExact(ss: seq<Store>, es: seq<Event>, l: string, n: nat)
    requires Trace(ss, es) && n < |ss| && Live(ss[n], l)
    ensures Shape(ss[n]) && (exists a :: ACAt(ss[n], l, a)) && Balance(ss[n], l) == ss[n].lvgs[l].size + Drift(ss, es, l, n)
  {
    TraceKeepsShape(ss, es, n);
    if n > 0 {
      var s, e := ss[n - 1], es[n - 1];
      assert StepTo(s, e, ss[n]);
      TraceKeepsShape(ss, es, n - 1);
      StepKeepsGroups(s, e);
      if Live(s, l) {
        DriftIsExact(ss, es, l, n - 1);
        var b :| ACAt(s, l, b);
        StepEffect(s, e, l, b);
      } else {
        NewGroupEffect(s, e, l);
      }
    }
  }

  // ---- from a drive to an LVG and back ----

  lemma ConversionKeepsAC(s: Store, v: VolumeSpec, b: string, n: string, l: string, a: string)
    requires Shape(s) && MayConvert(s, v, b, n) && ACAt(s, l, a) && Live(s, l)
    ensures WithLVG(s, v, b, n).drives == s.drives && a in WithLVG(s, v, b, n).acs && WithLVG(s, v, b, n).acs[a] == s.acs[a]
  {
    ACPlace(s, a);
    hide Shape;
  }

  lemma DeletionKeepsAC(s: Store, i: string, d: string, l: string, a: string)
    requires Shape(s) && i in s.volumes && ACAt(s, s.volumes[i].location, d) && ACAt(s, l, a)
    requires Live(VolumeDeleted(s, i, d), l)
    ensures VolumeDeleted(s, i, d).drives == s.drives && a in VolumeDeleted(s, i, d).acs
    ensures VolumeDeleted(s, i, d).acs[a] == s.acs[a].(size := VolumeDeleted(s, i, d).acs[a].size)
  {
    OneACAt(s, l, d, a);
    if Drops(s, s.volumes[i]) { DeletedIsDropped(s, i, d); } else { DeletedPlaces(s, i, d); }
    hide Shape, VolumeDeleted;
  }

  lemma StepKeepsAC(s: Store, e: Event, l: string, a: string)
    requires Shape(s) && Enabled(s, e) && ACAt(s, l, a) && Live(s, l) && Live(Apply(s, e), l)
    ensures a in Apply(s, e).acs && Apply(s, e).acs[a] == s.acs[a].(size := Apply(s, e).acs[a].size)
    ensures Apply(s, e).drives == s.drives
  {
    hide ACsInPlace, LVGsInPlace, VolumesInPlace, MayConvert;
    if e.Delete? {
      hide VolumeDeleted;
      DeletionKeepsAC(s, e.deleted, e.deletedAC, l, a);
    } else if e.Create? {
      hide WithLVG, Released;
      ConversionKeepsAC(s, e.spec, e.ac, e.lvgName, l, a);
    } else if e.CreateWithoutPVC? {
      hide WithLVG;
      ConversionKeepsAC(s, e.failedSpec, e.failedAC, e.failedLVG, l, a);
    } else if !e.RemoveLVG? {
      QuietInPlace(s, e);
      hide Apply, Enabled;
    }
  }

  /** AC a was taken from drive d to become LVG l. */
  ghost predicate Converts(s: Store, e: Event, a: string, l: string) {
    && (e.Create? || e.CreateWithoutPVC?) && Enabled(s, e)
    && (if e.Create? then e.ac == a && e.lvgName == l && NeedsConversion(s.acs[a], e.spec.sc)
        else e.failedAC == a && e.failedLVG == l && NeedsConversion(s.acs[a], e.failedSpec.sc))
  }

  lemma ConversionBegins(s: Store, e: Event, a: string, l: string)
    requires Shape(s) && Converts(s, e, a, l)
    ensures var t := Apply(s, e);
            && Live(t, l) && t.lvgs[l].locations == [s.acs[a].location] && t.lvgs[l].size == SubtractMetadata(s.acs[a].size)
            && ACAt(t, l, a) && t.acs[a] == s.acs[a].(size := t.acs[a].size, location := l, sc := t.acs[a].sc) && t.drives == s.drives
  {
    assert UsableSize([s.acs[a]]) == SubtractMetadata(s.acs[a].size) by { assert [s.acs[a]][..0] == []; }
    assert Locations([s.acs[a]]) == [s.acs[a].location];
    hide Shape, UsableSize, Locations, Allocated, Released;
  }

  /** Between the conversion and the deletion that drops the LVG, nothing but the free bytes of the AC changes,
      unless the LVG cannot be built and loses its drive. */
  lemma {:induction false} GroupStays(ss: seq<Store>, es: seq<Event>, a: string, l: string, n: nat)
    requires Trace(ss, es) && 1 <= n < |ss| && Converts(ss[0], es[0], a, l)
    requires forall k :: 1 <= k <= n ==> Live(ss[k], l)
    ensures var d := ss[0].acs[a].location;
            && Live(ss[n], l) && (ss[n].lvgs[l].locations == [d] || ss[n].lvgs[l].locations == [])
            && ss[n].lvgs[l].size == SubtractMetadata(ss[0].acs[a].size)
            && ACAt(ss[n], l, a) && ss[n].drives == ss[0].drives
            && ss[n].acs[a] == ss[0].acs[a].(size := ss[n].acs[a].size, location := l, sc := ss[n].acs[a].sc)
  {
    assert StepTo(ss[n - 1], es[n - 1], ss[n]);
    if n == 1 {
      ConversionBegins(ss[0], es[0], a, l);
    } else {
      GroupStays(ss, es, a, l, n - 1);
      TraceKeepsShape(ss, es, n - 1);
      StepKeepsAC(ss[n - 1], es[n - 1], l, a);
      StepKeepsGroups(ss[n - 1], es[n - 1]);
    }
  }

  ghost predicate HealthyDelete(s: Store, e: Event) {
    e.Delete? && e.deleted in s.volumes && s.volumes[e.deleted].healthy
  }

  lemma DropIsSeen(s: Store, i: string, d: string, l: string)
    requires Shape(s) && i in s.volumes && ACAt(s, s.volumes[i].location, d)
    requires Live(s, l) && !Live(VolumeDeleted(s, i, d), l)
    ensures Drops(s, s.volumes[i]) && s.volumes[i].location == l
  {
    if Drops(s, s.volumes[i]) { DeletedIsDropped(s, i, d); } else { DeletedPlaces(s, i, d); }
    hide Shape, VolumeDeleted;
  }

  /** A drive that became an LVG comes back with the deletion that drops the LVG: the AC is at its old location
      with its old class, and offers the usable size the conversion computed, less what the volumes hold that
      are still on the LVG. */
  lemma DriveComesBack(ss: seq<Store>, es: seq<Event>, a: string, l: string)
    requires CleanTrace(ss, es) && |es| > 1 && Converts(ss[0], es[0], a, l)
    requires forall k :: 1 <= k < |es| ==> Live(ss[k], l)
    requires HealthyDelete(ss[|es| - 1], es[|es| - 1]) && !Live(ss[|es|], l)
    ensures a in ss[0].acs && a in ss[|es|].acs
    ensures ss[|es|].acs[a] == ss[0].acs[a].(size := SubtractMetadata(ss[0].acs[a].size) - Used(ss[|es|].volumes, l))
  {
    hide Shape, Balanced, StepTo, HealthyDelete, Used;
    var n := |es| - 1;
    assert CleanStep(ss[n], es[n], ss[n + 1]);
    GroupStays(ss, es, a, l, n);
    BytesAreConserved(ss, es, n);
    DroppingDeletion(ss[n], es[n], ss[n + 1], a, l);
    OriginalClass(ss[0], a, es[0], l);
  }

  lemma DroppingDeletion(s: Store, e: Event, t: Store, a: string, l: string)
    requires Shape(s) && Balanced(s) && StepTo(s, e, t) && HealthyDelete(s, e)
    requires Live(s, l) && !Live(t, l) && ACAt(s, l, a)
    ensures a in t.acs && s.lvgs[l].locations != [] && s.lvgs[l].locations[0] in s.drives
    ensures var d := s.lvgs[l].locations[0];
            t.acs[a] == s.acs[a].(location := d, sc := DriveClass(s.drives[d]), size := s.lvgs[l].size - Used(t.volumes, l))
  {
    DropIsSeen(s, e.deleted, e.deletedAC, l);
    OneACAt(s, l, e.deletedAC, a);
    DropReturnsTheRest(s, e.deleted, a);
    hide ACsInPlace, VolumesInPlace, Balanced, VolumeDeleted, Used;
  }

  lemma OriginalClass(s: Store, a: string, e: Event, l: string)
    requires Shape(s) && Converts(s, e, a, l)
    ensures s.acs[a].location in s.drives && s.acs[a].sc == DriveClass(s.drives[s.acs[a].location])
  {
  }

  /** A whole drive taken by a plain volume and released again has lost only its last partial MiB. */
  lemma WholeDriveRoundTrip(s: Store, v: VolumeSpec, a: string)
    requires Shape(s) && a in s.acs && !IsLVG(s.acs[a].sc) && !NeedsConversion(s.acs[a], v.sc)
    ensures var t := Placed(s, v, a, true);
            && t.acs[a].size == 0
            && VolumeDeleted(t, v.id, a).acs[a] == s.acs[a].(size := AlignMB(s.acs[a].size))
            && AlignMB(AlignMB(s.acs[a].size)) == AlignMB(s.acs[a].size)
  {
    hide Shape;
  }

  // ---- where the accounts go wrong ----

  /** A second ControllerExpandVolume call that arrives while the first is under way settles with its
      own requiredBytes: after a failure the AC gains exactly the difference. */
  lemma SecondCallerOverRefunds(s: Store, i: string, n1: int, n2: int, a: string) returns (ss: seq<Store>, es: seq<Event>)
    requires Shape(s) && Balanced(s) && i in s.volumes && Expandable(s.volumes[i]) && ACAt(s, s.volumes[i].location, a)
    requires s.volumes[i].size < n1 < n2 && n1 - s.volumes[i].size <= s.acs[a].size
    ensures es == [Expand(s.volumes[i], n1, a), VolumeAction(i, NodeReconcile(Broken)), Settle(i, n2, a)]
    ensures Trace(ss, es) && ss[0] == s && i in ss[3].volumes && a in ss[3].acs
    ensures ss[3].volumes[i].size == s.volumes[i].size && ss[3].acs[a].size == s.acs[a].size + (n2 - n1)
  {
    hide ACsInPlace, LVGsInPlace, VolumesInPlace, Apply, Enabled, Balanced;
    var v := s.volumes[i];
    var e0, e1, e2 := Expand(v, n1, a), VolumeAction(i, NodeReconcile(Broken)), Settle(i, n2, a);
    ExpandStep(s, i, n1, a);
    var s1 := Apply(s, e0);
    FailStep(s1, i, a);
    var s2 := Apply(s1, e1);
    SettleStep(s2, i, n2, a);
    ss, es := [s, s1, s2, Apply(s2, e2)], [e0, e1, e2];
    assert StepTo(s, e0, s1) && StepTo(s1, e1, s2) && StepTo(s2, e2, ss[3]);
  }

  lemma ExpandStep(s: Store, i: string, n: int, a: string)
    requires Shape(s) && i in s.volumes && Expandable(s.volumes[i]) && ACAt(s, s.volumes[i].location, a)
    requires s.volumes[i].size < n && n - s.volumes[i].size <= s.acs[a].size
    ensures var e := Expand(s.volumes[i], n, a);
            && Enabled(s, e) && Shape(Apply(s, e)) && i in Apply(s, e).volumes
            && Apply(s, e).volumes[i] == ExpandStarted(s.volumes[i], n) && Apply(s, e).volumes[i].onLVM
            && ACAt(Apply(s, e), s.volumes[i].location, a) && Apply(s, e).acs[a].size == s.acs[a].size - (n - s.volumes[i].size)
  {
    LVMVolumeAt(s, i);
    assert s.volumes[i].id == i;
    hide ACsInPlace, LVGsInPlace, VolumesInPlace;
    StepKeepsShape(s, Expand(s.volumes[i], n, a));
    hide Keyed;
  }

  lemma FailStep(s: Store, i: string, a: string)
    requires Shape(s) && i in s.volumes && s.volumes[i].status.Resizing? && ACAt(s, s.volumes[i].location, a)
    ensures var e := VolumeAction(i, NodeReconcile(Broken));
            && Enabled(s, e) && Shape(Apply(s, e)) && i in Apply(s, e).volumes
            && Apply(s, e).volumes[i] == s.volumes[i].(status := Failed) && Apply(s, e).acs == s.acs
            && ACAt(Apply(s, e), s.volumes[i].location, a)
  {
    StepKeepsShape(s, VolumeAction(i, NodeReconcile(Broken)));
    hide Shape;
  }

  lemma SettleStep(s: Store, i: string, n: int, a: string)
    requires Shape(s) && i in s.volumes && s.volumes[i].onLVM && ACAt(s, s.volumes[i].location, a)
    requires Refunds(s.volumes[i])
    ensures var e := Settle(i, n, a);
            && Enabled(s, e) && i in Apply(s, e).volumes && a in Apply(s, e).acs
            && Apply(s, e).volumes[i].size == s.volumes[i].previousCapacity.value
            && Apply(s, e).acs[a].size == s.acs[a].size + (n - s.volumes[i].previousCapacity.value)
  {
    hide Shape;
  }

  /** The planner checks a volume-group request against the raw drive, but the conversion first takes
      the metadata off: the AC goes negative exactly when the volume exceeds the usable size. */
  lemma ConversionOverdraws(s: Store, v: VolumeSpec, a: string, l: string)
    requires Shape(s) && MayConvert(s, v, a, l) && NeedsConversion(s.acs[a], v.sc)
    ensures Placed(WithLVG(s, v, a, l), v, a, true).acs[a].size < 0 <==> v.size > SubtractMetadata(s.acs[a].size)
  {
    var usable := SubtractMetadata(s.acs[a].size);
    assert UsableSize([s.acs[a]]) == usable by { assert [s.acs[a]][..0] == []; }
    hide Shape, UsableSize;
    if v.size <= usable {
      AlignPEMonotone(v.size, usable);
      AlignPEFixpoint(usable);
    }
  }
}
