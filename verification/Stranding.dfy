// A deletion drops the LVG of its volume when at most one volume is registered in it, although another one
// may be on it that is not registered yet. That volume then lies on an LVG without an AC, on a drive that is
// offered again: when this happens, and that it lasts.

module Stranding {
  import opened Types
  import opened Align
  import opened Lifecycle
  import opened Stores
  import opened Ledger
  import opened Conservation

  /** The volume is on an LVG that has no AC. */
  ghost predicate Stranded(s: Store, i: string) {
    i in s.volumes && s.volumes[i].onLVM && forall a :: !ACAt(s, s.volumes[i].location, a)
  }

  /** What a caller can check before a deletion: at most one volume is registered in the LVG, and i is another one on it. */
  predicate DropsUnder(s: Store, e: Event, i: string) {
    && e.Delete? && e.deleted in s.volumes && i in s.volumes && i != e.deleted
    && On(s.volumes[i], s.volumes[e.deleted].location) && Drops(s, s.volumes[e.deleted])
  }

  lemma StrandedIffDeleting(s: Store, i: string)
    requires Shape(s) && i in s.volumes && s.volumes[i].onLVM
    ensures s.volumes[i].location in s.lvgs
    ensures Stranded(s, i) <==> s.lvgs[s.volumes[i].location].deleting
  {
    var l := s.volumes[i].location;
    if Live(s, l) {
      var a :| ACAt(s, l, a);
    } else {
      forall a | a in s.acs ensures s.acs[a].location != l { ACPlace(s, a); }
    }
    hide ACsInPlace, LVGsInPlace;
  }

  // ---- one step ----

  /** A conversion touches no volume. */
  lemma ConversionKeepsVolumes(s: Store, v: VolumeSpec, a: string, l: string)
    requires a in s.acs
    ensures WithLVG(s, v, a, l).volumes == s.volumes
  {
  }

  lemma ActKeepsPlace(v: Volume, a: Action)
    ensures Act(v, a).location == v.location && Act(v, a).onLVM == v.onLVM
  {
  }

  predicate SamePlace(s: Store, t: Store, i: string) {
    i in s.volumes && i in t.volumes && t.volumes[i].onLVM == s.volumes[i].onLVM && t.volumes[i].location == s.volumes[i].location
  }

  lemma PreparedKeepsPlace(s: Store, j: string, o: NodeOutcome, i: string)
    requires i in s.volumes && j in s.volumes
    ensures SamePlace(s, PreparedInLVG(s, j, o), i)
  {
    assert Reconciled(s.volumes[j], o).location == s.volumes[j].location && Reconciled(s.volumes[j], o).onLVM == s.volumes[j].onLVM;
    hide Reconciled;
  }

  lemma SettledKeepsPlace(s: Store, j: string, n: int, a: string, i: string)
    requires i in s.volumes && j in s.volumes && a in s.acs
    ensures SamePlace(s, ExpandSettled(s, j, n, a), i)
  {
  }

  lemma ExpandKeepsPlace(s: Store, c: Volume, n: int, a: string, i: string)
    requires Keyed(s) && i in s.volumes && a in s.acs
    ensures SamePlace(s, ExpandReserved(s, c, n, a), i)
  {
  }

  lemma CreateKeepsPlace(s: Store, e: Event, i: string)
    requires Enabled(s, e) && Keyed(s) && i in s.volumes && (e.Create? || e.CreateWithoutPVC?)
    ensures SamePlace(s, Apply(s, e), i)
  {
    if e.Create? {
      ConversionKeepsVolumes(s, e.spec, e.ac, e.lvgName);
    } else {
      ConversionKeepsVolumes(s, e.failedSpec, e.failedAC, e.failedLVG);
    }
    hide WithLVG, Released, Allocated, MayConvert;
  }

  lemma VolumeKeepsPlace(s: Store, e: Event, i: string)
    requires Shape(s) && Enabled(s, e) && i in s.volumes && !(e.Delete? && e.deleted == i)
    ensures SamePlace(s, Apply(s, e), i)
  {
    if e.Create? || e.CreateWithoutPVC? { CreateKeepsPlace(s, e, i); }
    if e.VolumeAction? { ActKeepsPlace(s.volumes[e.id], e.action); }
    if e.Prepare? { PreparedKeepsPlace(s, e.prepared, e.outcome, i); }
    if e.Settle? { SettledKeepsPlace(s, e.settled, e.settledBytes, e.settledAC, i); }
    if e.Expand? { ExpandKeepsPlace(s, e.copy, e.requiredBytes, e.expandAC, i); }
    hide Shape, Keyed, VolumeCreated, WithLVG, Act, PreparedInLVG, ExpandSettled, ExpandReserved, LVGsAfterDeletion, ACAfterDeletion, MayConvert;
  }

  /** A volume that was not there before has an AC at its place: the one it was created on. */
  lemma CreatedHasAC(s: Store, e: Event, i: string)
    requires Shape(s) && Enabled(s, e) && i !in s.volumes
    ensures !Stranded(Apply(s, e), i)
  {
    if e.Create? {
      ConversionKeepsVolumes(s, e.spec, e.ac, e.lvgName);
      hide WithLVG, Released, Allocated, ACsInPlace, LVGsInPlace, VolumesInPlace;
      assert i == e.spec.id ==> ACAt(Apply(s, e), Apply(s, e).volumes[i].location, e.ac);
    } else if e.CreateWithoutPVC? {
      ConversionKeepsVolumes(s, e.failedSpec, e.failedAC, e.failedLVG);
    } else {
      hide ACsInPlace, LVGsInPlace, VolumesInPlace, LVGsAfterDeletion, ACAfterDeletion;
    }
  }

  /** A stranded volume cannot be deleted, and stays where it is, on the same drive. */
  lemma StrandedStays(s: Store, e: Event, i: string)
    requires Shape(s) && Enabled(s, e) && Stranded(s, i)
    ensures Stranded(Apply(s, e), i) && Apply(s, e).volumes[i].location == s.volumes[i].location
    ensures var l := s.volumes[i].location;
            l in s.lvgs && l in Apply(s, e).lvgs && Apply(s, e).lvgs[l].locations == s.lvgs[l].locations
    ensures !(e.Delete? && e.deleted == i)
  {
    StrandedIffDeleting(s, i);
    VolumeKeepsPlace(s, e, i);
    StepKeepsShape(s, e);
    StepKeepsGroups(s, e);
    hide Apply, ACsInPlace, LVGsInPlace, VolumesInPlace, MayConvert;
    StrandedIffDeleting(Apply(s, e), i);
  }

  lemma LVMVolumeStrands(s: Store, e: Event, i: string)
    requires Shape(s) && Enabled(s, e) && !Stranded(s, i) && i in s.volumes && s.volumes[i].onLVM && !(e.Delete? && e.deleted == i)
    ensures Stranded(Apply(s, e), i) <==> DropsUnder(s, e, i)
  {
    StepKeepsShape(s, e);
    VolumeKeepsPlace(s, e, i);
    StrandedIffDeleting(s, i);
    StrandedIffDeleting(Apply(s, e), i);
    KeptUnlessDropped(s, e, s.volumes[i].location);
    hide Apply, ACsInPlace, LVGsInPlace, VolumesInPlace, Keyed, MayConvert, Stranded;
  }

  /** A step strands a volume exactly if it drops the LVG under it, and then one of the two volumes is not registered. */
  lemma StrandsExactly(s: Store, e: Event, i: string)
    requires Shape(s) && Enabled(s, e) && !Stranded(s, i)
    ensures Stranded(Apply(s, e), i) <==> DropsUnder(s, e, i)
    ensures DropsUnder(s, e, i) ==>
              var refs := s.lvgs[s.volumes[i].location].volumeRefs;
              i !in refs || e.deleted !in refs
  {
    if i !in s.volumes {
      CreatedHasAC(s, e, i);
    } else if !(e.Delete? && e.deleted == i) {
      if s.volumes[i].onLVM { LVMVolumeStrands(s, e, i); } else { VolumeKeepsPlace(s, e, i); }
      hide Apply;
    }
    hide Shape, MayConvert;
  }

  // ---- whole runs ----

  ghost predicate DropsUnderBefore(ss: seq<Store>, es: seq<Event>, i: string, n: nat)
    requires n <= |es| < |ss|
  {
    exists k :: 0 <= k < n && DropsUnder(ss[k], es[k], i)
  }

  /** In every run a volume is stranded if and only if some deletion dropped the LVG under it: it stays stranded ever after. */
  lemma {:induction false} StrandedExactly(ss: seq<Store>, es: seq<Event>, i: string, n: nat)
    requires Trace(ss, es) && n < |ss| && !Stranded(ss[0], i)
    ensures Stranded(ss[n], i) <==> DropsUnderBefore(ss, es, i, n)
  {
    hide Shape, Keyed, Apply, Enabled, Stranded, DropsUnder;
    if n > 0 {
      StrandedExactly(ss, es, i, n - 1);
      TraceKeepsShape(ss, es, n - 1);
      var s, e := ss[n - 1], es[n - 1];
      assert StepTo(s, e, ss[n]);
      if Stranded(s, i) {
        StrandedStays(s, e, i);
      } else {
        StrandsExactly(s, e, i);
      }
    }
  }

  /** A stranded volume is never deleted, and its LVG is kept. */
  lemma {:induction false} StrandedForGood(ss: seq<Store>, es: seq<Event>, i: string, m: nat, n: nat)
    requires Trace(ss, es) && m <= n < |ss| && Stranded(ss[m], i)
    ensures Stranded(ss[n], i) && ss[n].volumes[i].location == ss[m].volumes[i].location
    ensures var l := ss[m].volumes[i].location;
            l in ss[m].lvgs && l in ss[n].lvgs && ss[n].lvgs[l].locations == ss[m].lvgs[l].locations
    ensures forall k :: m <= k < n ==> !(es[k].Delete? && es[k].deleted == i)
  {
    hide Shape, Keyed, Apply, Enabled, DropsUnder;
    TraceKeepsShape(ss, es, m);
    StrandedIffDeleting(ss[m], i);
    if n > m {
      StrandedForGood(ss, es, i, m, n - 1);
      TraceKeepsShape(ss, es, n - 1);
      assert StepTo(ss[n - 1], es[n - 1], ss[n]);
      StrandedStays(ss[n - 1], es[n - 1], i);
    }
  }

  // ---- the drive ----

  /** A volume of an LVG made of drive d. */
  predicate Over(s: Store, i: string, d: string) {
    && i in s.volumes && s.volumes[i].onLVM && s.volumes[i].location in s.lvgs
    && s.lvgs[s.volumes[i].location].locations != [] && s.lvgs[s.volumes[i].location].locations[0] == d
  }

  lemma OfferedMeansStranded(s: Store, i: string, d: string, a: string)
    requires Shape(s) && Over(s, i, d) && ACAt(s, d, a)
    ensures Stranded(s, i)
  {
    StrandedIffDeleting(s, i);
    assert !Based(s, s.volumes[i].location);
  }

  lemma DropOffersTheDrive(s: Store, e: Event, i: string)
    requires Shape(s) && Enabled(s, e) && DropsUnder(s, e, i)
    ensures var d := s.lvgs[s.volumes[i].location].locations[0];
            Over(s, i, d) && Over(Apply(s, e), i, d) && ACAt(Apply(s, e), d, e.deletedAC)
  {
    DeletedIsDropped(s, e.deleted, e.deletedAC);
    hide ACsInPlace, LVGsInPlace, VolumesInPlace, VolumeDeleted;
  }

  /** The drive under a stranded volume is the one whose AC came back. */
  lemma DropSeenLater(ss: seq<Store>, es: seq<Event>, i: string, k: nat, n: nat)
    requires Trace(ss, es) && k < n < |ss| && DropsUnder(ss[k], es[k], i)
    ensures Stranded(ss[n], i)
    ensures forall d :: Over(ss[k], i, d) <==> Over(ss[n], i, d)
  {
    TraceKeepsShape(ss, es, k);
    assert StepTo(ss[k], es[k], ss[k + 1]);
    DropOffersTheDrive(ss[k], es[k], i);
    TraceKeepsShape(ss, es, k + 1);
    hide Shape, Keyed, Apply, Enabled;
    OfferedMeansStranded(ss[k + 1], i, ss[k].lvgs[ss[k].volumes[i].location].locations[0], es[k].deletedAC);
    StrandedForGood(ss, es, i, k + 1, n);
    hide Stranded, DropsUnder;
  }

  /** In every run, the AC of a drive is there for others while a volume lies on an LVG made of the drive if and only if
      a deletion dropped that LVG under the volume. */
  lemma OfferedUnderExactly(ss: seq<Store>, es: seq<Event>, n: nat, i: string, d: string, a: string)
    requires Trace(ss, es) && n < |ss| && !Stranded(ss[0], i) && ACAt(ss[n], d, a)
    ensures Over(ss[n], i, d) <==> exists k :: 0 <= k < n && DropsUnder(ss[k], es[k], i) && Over(ss[k], i, d)
  {
    hide Shape, Keyed, Apply, Enabled, Stranded, DropsUnder, Over;
    if Over(ss[n], i, d) {
      TraceKeepsShape(ss, es, n);
      OfferedMeansStranded(ss[n], i, d, a);
      StrandedExactly(ss, es, i, n);
      var k :| 0 <= k < n && DropsUnder(ss[k], es[k], i);
      DropSeenLater(ss, es, i, k, n);
    }
    forall k | 0 <= k < n && DropsUnder(ss[k], es[k], i) && Over(ss[k], i, d) ensures Over(ss[n], i, d) {
      DropSeenLater(ss, es, i, k, n);
    }
  }

  /** No drive is ever offered under a volume of its LVG. */
  ghost predicate NeverOfferedUnder(ss: seq<Store>) {
    forall n, i, d, a :: 0 <= n < |ss| && Over(ss[n], i, d) ==> !ACAt(ss[n], d, a)
  }

  ghost predicate NeverDropsUnder(ss: seq<Store>, es: seq<Event>)
    requires |es| < |ss|
  {
    forall k, i :: 0 <= k < |es| ==> !DropsUnder(ss[k], es[k], i)
  }

  /** A run keeps the drives under volumes out of reach if and only if no deletion in it drops an LVG under a volume. */
  lemma DrivesStayUnderVolumesExactly(ss: seq<Store>, es: seq<Event>)
    requires Trace(ss, es) && forall i :: !Stranded(ss[0], i)
    ensures NeverOfferedUnder(ss) <==> NeverDropsUnder(ss, es)
  {
    hide Shape, Keyed, Apply, Enabled, Stranded, DropsUnder, Over, ACAt;
    if NeverDropsUnder(ss, es) {
      forall n, i, d, a | 0 <= n < |ss| && Over(ss[n], i, d) ensures !ACAt(ss[n], d, a) {
        if ACAt(ss[n], d, a) { OfferedUnderExactly(ss, es, n, i, d, a); }
      }
    }
    if NeverOfferedUnder(ss) {
      forall k, i | 0 <= k < |es| ensures !DropsUnder(ss[k], es[k], i) {
        if DropsUnder(ss[k], es[k], i) {
          TraceKeepsShape(ss, es, k);
          assert StepTo(ss[k], es[k], ss[k + 1]);
          var d, a := DroppedDrive(ss[k], es[k], i);
        }
      }
    }
  }

  lemma DroppedDrive(s: Store, e: Event, i: string) returns (d: string, a: string)
    requires Shape(s) && Enabled(s, e) && DropsUnder(s, e, i)
    ensures Over(Apply(s, e), i, d) && ACAt(Apply(s, e), d, a)
  {
    DropOffersTheDrive(s, e, i);
    d, a := s.lvgs[s.volumes[i].location].locations[0], e.deletedAC;
    hide Shape, Apply, Over;
  }

  // ---- a run ----

  const FREE := AC("a", "n", 101 * MBYTE, HDD, "d", None, false)
  const MOVED := FREE.(location := "g", sc := HDDLVG)
  const GROUP := LVG("g", "n", ["d"], 100 * MBYTE, LVGCreating, [], false)
  const READY := GROUP.(status := LVGCreated)

  function Request(sc: StorageClass): ReservationRequest {
    ReservationRequest(CapacityRequest("", 4 * MBYTE, sc, ""), ["a"])
  }

  /** The reservation of a pod, with the requests that still wait for their volumes. */
  function Pod(classes: seq<StorageClass>): ACR {
    ACR("p", "", Reserved, seq(|classes|, i requires 0 <= i < |classes| => Request(classes[i])), ["n"], ["n"])
  }

  function OnGroup(id: string, status: Status): Volume {
    Volume(id, "n", 4 * MBYTE, "g", HDDLVG, true, status, true, false, [], None, None)
  }

  const WHOLE := Volume("x", "n", 96 * MBYTE, "d", HDD, false, Creating, true, false, [], None, None)

  function Spec(id: string, sc: StorageClass): VolumeSpec {
    VolumeSpec(id, "n", sc, 4 * MBYTE)
  }

  /** One drive and its capacity. */
  function OneDrive(ac: AC, acrs: map<string, ACR>, volumes: map<string, Volume>, lvgs: map<string, LVG>): Store {
    Store(map["a" := ac], acrs, volumes, lvgs, map["d" := DriveHDD])
  }

  lemma Sizes()
    ensures AlignPE(4 * MBYTE) == 4 * MBYTE && AlignMB(96 * MBYTE) == 96 * MBYTE
    ensures UsableSize([FREE]) == 100 * MBYTE && Locations([FREE]) == ["d"]
  {
    assert [FREE][..0] == [];
    assert SubtractMetadata(101 * MBYTE) == 100 * MBYTE;
    assert UsableSize([]) == 0;
  }

  lemma StartIsShaped(acrs: map<string, ACR>)
    requires forall n :: n in acrs ==> acrs[n].name == n
    ensures Shape(OneDrive(FREE, acrs, map[], map[]))
  {
  }

  lemma Conversion(acrs: map<string, ACR>, v: VolumeSpec)
    requires v.sc.HDDLVG?
    ensures WithLVG(OneDrive(FREE, acrs, map[], map[]), v, "a", "g") == OneDrive(MOVED.(size := 100 * MBYTE), acrs, map[], map["g" := GROUP])
  {
    Sizes();
    var ac := MOVED.(size := 100 * MBYTE);
    assert map["a" := FREE]["a" := ac] == map["a" := ac];
    hide UsableSize, Locations;
  }

  /** The first volume converts the drive. */
  lemma Converting(acr: ACR, acrs: map<string, ACR>, v: VolumeSpec)
    requires Keyed(OneDrive(FREE, acrs, map[], map[])) && acr.name in acrs && acr.requests != []
    requires v == Spec(v.id, HDDLVG)
    ensures StepTo(OneDrive(FREE, acrs, map[], map[]), Create(acr, 0, v, "a", "g", true),
                   OneDrive(MOVED.(size := 96 * MBYTE), Released(acrs, acr, 0), map[v.id := OnGroup(v.id, Creating)], map["g" := GROUP]))
  {
    Sizes();
    Conversion(acrs, v);
    var ac, ac' := MOVED.(size := 100 * MBYTE), MOVED.(size := 96 * MBYTE);
    assert map["a" := ac]["a" := ac'] == map["a" := ac'];
    var s := OneDrive(FREE, acrs, map[], map[]);
    assert MayConvert(s, v, "a", "g");
    hide WithLVG, AlignPE, Keyed, Released;
  }

  lemma Readied(ac: AC, acrs: map<string, ACR>, volumes: map<string, Volume>)
    requires Keyed(OneDrive(ac, acrs, volumes, map["g" := GROUP]))
    ensures StepTo(OneDrive(ac, acrs, volumes, map["g" := GROUP]), LVGReady("g", true, true), OneDrive(ac, acrs, volumes, map["g" := READY]))
  {
    assert map["g" := GROUP]["g" := READY] == map["g" := READY];
    hide Keyed;
  }

  lemma Prepared(ac: AC, acrs: map<string, ACR>, volumes: map<string, Volume>, id: string, lvg: LVG)
    requires Keyed(OneDrive(ac, acrs, volumes, map["g" := lvg])) && lvg.status.LVGCreated? && id !in lvg.volumeRefs
    requires id in volumes && volumes[id].status.Creating? && volumes[id].onLVM && volumes[id].location == "g"
    ensures StepTo(OneDrive(ac, acrs, volumes, map["g" := lvg]), Prepare(id, Done),
                   OneDrive(ac, acrs, volumes[id := volumes[id].(status := Created)], map["g" := lvg.(volumeRefs := lvg.volumeRefs + [id])]))
  {
    var lvg' := lvg.(volumeRefs := lvg.volumeRefs + [id]);
    assert map["g" := lvg]["g" := lvg'] == map["g" := lvg'];
    hide Keyed;
  }

  lemma Acts(s: Store, id: string, a: Action)
    requires Keyed(s) && id in s.volumes && !a.ExpandStart? && !a.ExpandFinish?
    ensures StepTo(s, VolumeAction(id, a), s.(volumes := s.volumes[id := Act(s.volumes[id], a)]))
  {
    hide Keyed, Act;
  }

  /** A further volume is created. */
  lemma Places(ac: AC, acr: ACR, acrs: map<string, ACR>, volumes: map<string, Volume>, lvgs: map<string, LVG>, v: VolumeSpec, lvgName: string)
    requires var s := OneDrive(ac, acrs, volumes, lvgs); Keyed(s) && v.id !in volumes
    requires acr.name in acrs && acr.requests != [] && ac.name == "a" && (IsLVG(v.sc) ==> ac.sc == v.sc)
    ensures var ac' := ac.(size := if IsLVG(ac.sc) then ac.size - Allocated(ac, v) else 0);
            StepTo(OneDrive(ac, acrs, volumes, lvgs), Create(acr, 0, v, "a", lvgName, true),
                   OneDrive(ac', Released(acrs, acr, 0), volumes[v.id := NewVolume(ac, v)], lvgs))
  {
    var ac' := ac.(size := if IsLVG(ac.sc) then ac.size - Allocated(ac, v) else 0);
    assert map["a" := ac]["a" := ac'] == map["a" := ac'];
    hide Keyed, Allocated, Released;
  }

  lemma Deleting(ac: AC, acrs: map<string, ACR>, volumes: map<string, Volume>, id: string, lvg: LVG)
    requires Keyed(OneDrive(ac, acrs, volumes, map["g" := lvg])) && ac.location == "g" && lvg.locations == ["d"] && |lvg.volumeRefs| <= 1
    requires id in volumes && volumes[id].status.Removed? && volumes[id].onLVM && volumes[id].location == "g"
    requires IsLVG(volumes[id].sc) && volumes[id].healthy
    ensures StepTo(OneDrive(ac, acrs, volumes, map["g" := lvg]), Delete(id, "a"),
                   OneDrive(ac.(location := "d", sc := HDD, size := ac.size + volumes[id].size), acrs, volumes - {id},
                            map["g" := lvg.(deleting := true)]))
  {
    var s := OneDrive(ac, acrs, volumes, map["g" := lvg]);
    var ac', lvg' := ac.(location := "d", sc := HDD, size := ac.size + volumes[id].size), lvg.(deleting := true);
    assert map["a" := ac]["a" := ac'] == map["a" := ac'];
    assert map["g" := lvg]["g" := lvg'] == map["g" := lvg'];
    hide Keyed;
    assert DriveAndLVG(s, volumes[id]) == (Some("d"), Some(lvg));
  }

  function Holding(classes: seq<StorageClass>): map<string, ACR> {
    map["p" := Pod(classes)]
  }

  lemma ReleasesFirst(classes: seq<StorageClass>)
    requires |classes| > 1
    ensures Released(Holding(classes), Pod(classes), 0) == Holding(classes[1..])
  {
    assert RemoveAt(Pod(classes).requests, 0) == Pod(classes[1..]).requests;
    assert map["p" := Pod(classes)]["p" := Pod(classes[1..])] == map["p" := Pod(classes[1..])];
  }

  /** One pod with three volumes. */
  const THREE := [HDDLVG, HDDLVG, HDD]

  const PART := MOVED.(size := 96 * MBYTE)
  const LESS := MOVED.(size := 92 * MBYTE)
  const BACK := FREE.(size := 96 * MBYTE)
  const WITHV := READY.(volumeRefs := ["v"])

  function Vs(v: Status): map<string, Volume> {
    map["v" := OnGroup("v", v)]
  }

  function Both(v: Status): map<string, Volume> {
    Vs(v)["w" := OnGroup("w", Creating)]
  }

  /** v is created and converts the drive, is prepared, and its deletion begins. While the node removes it, w is created;
      then v is deleted, w prepared on the LVG that is to go, and x created on the drive. */
  function At(n: nat): Store
    requires n <= 9
  {
    if n == 0 then OneDrive(FREE, Holding(THREE), map[], map[])
    else if n == 1 then OneDrive(PART, Holding(THREE[1..]), Vs(Creating), map["g" := GROUP])
    else if n == 2 then OneDrive(PART, Holding(THREE[1..]), Vs(Creating), map["g" := READY])
    else if n == 3 then OneDrive(PART, Holding(THREE[1..]), Vs(Created), map["g" := WITHV])
    else if n == 4 then OneDrive(PART, Holding(THREE[1..]), Vs(Removing), map["g" := WITHV])
    else if n == 5 then OneDrive(LESS, Holding(THREE[2..]), Both(Removing), map["g" := WITHV])
    else if n == 6 then OneDrive(LESS, Holding(THREE[2..]), Both(Removed), map["g" := WITHV])
    else if n == 7 then OneDrive(BACK, Holding(THREE[2..]), map["w" := OnGroup("w", Creating)], map["g" := WITHV.(deleting := true)])
    else if n == 8 then OneDrive(BACK, Holding(THREE[2..]), map["w" := OnGroup("w", Created)],
                                 map["g" := WITHV.(deleting := true, volumeRefs := ["v", "w"])])
    else OneDrive(BACK.(size := 0), map[], map["w" := OnGroup("w", Created)]["x" := WHOLE],
                  map["g" := WITHV.(deleting := true, volumeRefs := ["v", "w"])])
  }

  function Does(n: nat): Event
    requires n < 9
  {
    if n == 0 then Create(Pod(THREE), 0, Spec("v", HDDLVG), "a", "g", true)
    else if n == 1 then LVGReady("g", true, true)
    else if n == 2 then Prepare("v", Done)
    else if n == 3 then VolumeAction("v", RequestDelete)
    else if n == 4 then Create(Pod(THREE[1..]), 0, Spec("w", HDDLVG), "a", "h", true)
    else if n == 5 then VolumeAction("v", NodeReconcile(Done))
    else if n == 6 then Delete("v", "a")
    else if n == 7 then Prepare("w", Done)
    else Create(Pod(THREE[2..]), 0, Spec("x", HDD), "a", "k", true)
  }

  lemma Rewrite<T>(k: string, l: string, x: T, y: T, z: T)
    requires k != l
    ensures map[k := x][l := y][k := z] == map[k := z][l := y] && map[k := x][l := y] - {k} == map[l := y]
  {
  }

  lemma KeyedAt(n: nat)
    requires n <= 9
    ensures Keyed(At(n))
  {
  }

  lemma Step0()
    ensures StepTo(At(0), Does(0), At(1))
  {
    ReleasesFirst(THREE);
    hide StepTo, Keyed, Balanced, DropsUnder, Stranded, Released;
    KeyedAt(0);
    Converting(Pod(THREE), Holding(THREE), Spec("v", HDDLVG));
  }

  lemma Step1()
    ensures StepTo(At(1), Does(1), At(2))
  {
    hide StepTo, Keyed, Balanced, DropsUnder, Stranded;
    KeyedAt(1);
    Readied(PART, Holding(THREE[1..]), Vs(Creating));
  }

  lemma Step2()
    ensures StepTo(At(2), Does(2), At(3))
  {
    hide StepTo, Keyed, Balanced, DropsUnder, Stranded;
    KeyedAt(2);
    Prepared(PART, Holding(THREE[1..]), Vs(Creating), "v", READY);
    assert Vs(Creating)["v" := OnGroup("v", Created)] == Vs(Created);
    assert [] + ["v"] == ["v"];
  }

  lemma Step3()
    ensures StepTo(At(3), Does(3), At(4))
  {
    hide StepTo, Keyed, Balanced, DropsUnder, Stranded;
    KeyedAt(3);
    Acts(At(3), "v", RequestDelete);
    assert Vs(Created)["v" := OnGroup("v", Removing)] == Vs(Removing);
  }

  lemma Step4()
    ensures StepTo(At(4), Does(4), At(5))
  {
    ReleasesFirst(THREE[1..]);
    assert THREE[1..][1..] == THREE[2..];
    Sizes();
    hide StepTo, Keyed, Balanced, DropsUnder, Stranded, Released, AlignPE;
    KeyedAt(4);
    Places(PART, Pod(THREE[1..]), Holding(THREE[1..]), Vs(Removing), map["g" := WITHV], Spec("w", HDDLVG), "h");
  }

  lemma Step5()
    ensures StepTo(At(5), Does(5), At(6))
  {
    hide StepTo, Keyed, Balanced, DropsUnder, Stranded;
    KeyedAt(5);
    Acts(At(5), "v", NodeReconcile(Done));
    Rewrite("v", "w", OnGroup("v", Removing), OnGroup("w", Creating), OnGroup("v", Removed));
  }

  lemma Step6()
    ensures StepTo(At(6), Does(6), At(7))
  {
    hide StepTo, Keyed, Balanced, DropsUnder, Stranded;
    KeyedAt(6);
    Deleting(LESS, Holding(THREE[2..]), Both(Removed), "v", WITHV);
    Rewrite("v", "w", OnGroup("v", Removed), OnGroup("w", Creating), OnGroup("v", Removed));
  }

  lemma Step7()
    ensures StepTo(At(7), Does(7), At(8))
  {
    hide StepTo, Keyed, Balanced, DropsUnder, Stranded;
    KeyedAt(7);
    Prepared(BACK, Holding(THREE[2..]), map["w" := OnGroup("w", Creating)], "w", WITHV.(deleting := true));
    assert map["w" := OnGroup("w", Creating)]["w" := OnGroup("w", Created)] == map["w" := OnGroup("w", Created)];
    assert ["v"] + ["w"] == ["v", "w"];
  }

  lemma Step8()
    ensures StepTo(At(8), Does(8), At(9))
  {
    Sizes();
    assert Holding(THREE[2..]) - {"p"} == map[];
    hide StepTo, Keyed, Balanced, DropsUnder, Stranded, AlignMB;
    KeyedAt(8);
    Places(BACK, Pod(THREE[2..]), Holding(THREE[2..]), map["w" := OnGroup("w", Created)],
           map["g" := WITHV.(deleting := true, volumeRefs := ["v", "w"])], Spec("x", HDD), "k");
  }

  lemma EveryStep(n: nat)
    requires n < 9
    ensures StepTo(At(n), Does(n), At(n + 1))
  {
    hide StepTo, At, Does;
    if n == 0 { Step0(); } else if n == 1 { Step1(); } else if n == 2 { Step2(); } else if n == 3 { Step3(); }
    else if n == 4 { Step4(); } else if n == 5 { Step5(); } else if n == 6 { Step6(); } else if n == 7 { Step7(); } else { Step8(); }
  }

  lemma AtTheEnd()
    ensures DropsUnder(At(6), Does(6), "w")
    ensures Stranded(At(9), "w") && Over(At(9), "w", "d") && At(9).volumes["w"].status.Created?
    ensures "x" in At(9).volumes && !At(9).volumes["x"].onLVM && At(9).volumes["x"].location == "d"
  {
  }

  /** The deletion of v strands w, and in the end another volume has the drive under w for itself. */
  lemma DroppedUnderAVolume() returns (ss: seq<Store>, es: seq<Event>)
    ensures Trace(ss, es) && |es| == 9 && ss[0] == OneDrive(FREE, Holding(THREE), map[], map[])
    ensures DropsUnder(ss[6], es[6], "w") && es[6] == Delete("v", "a")
    ensures Stranded(ss[9], "w") && Over(ss[9], "w", "d") && ss[9].volumes["w"].status.Created?
    ensures "x" in ss[9].volumes && !ss[9].volumes["x"].onLVM && ss[9].volumes["x"].location == "d"
  {
    AtTheEnd();
    StartIsShaped(Holding(THREE));
    assert At(0) == OneDrive(FREE, Holding(THREE), map[], map[]) && Does(6) == Delete("v", "a");
    hide StepTo, Shape, Holding, Over, Stranded, DropsUnder, At, Does, OneDrive;
    ss, es := seq(10, n requires 0 <= n < 10 => At(n)), seq(9, n requires 0 <= n < 9 => Does(n));
    forall k | 0 <= k < 9 ensures StepTo(ss[k], es[k], ss[k + 1]) { EveryStep(k); }
  }
}
