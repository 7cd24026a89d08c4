// Byte accounting of volume groups over whole runs: what an AC offers plus what the volumes on its
// LVG hold is the size of the LVG.

module Ledger {
  import opened Types
  import opened Align
  import opened Lifecycle
  import opened Stores

  // ---- the bytes held by volumes ----

  predicate On(v: Volume, l: string) {
    v.onLVM && v.location == l
  }

  function Held(v: Volume, l: string): int {
    if On(v, l) then v.size else 0
  }

  ghost function Used(vols: map<string, Volume>, l: string): int {
    if vols == map[] then 0
    else
      var k :| k in vols;
      Held(vols[k], l) + Used(vols - {k}, l)
  }

  lemma {:induction false} UsedWithout(vols: map<string, Volume>, l: string, id: string)
    requires id in vols
    ensures Used(vols, l) == Held(vols[id], l) + Used(vols - {id}, l)
  {
    var k :| k in vols && Used(vols, l) == Held(vols[k], l) + Used(vols - {k}, l);
    if k != id {
      UsedWithout(vols - {k}, l, id);
      UsedWithout(vols - {id}, l, k);
      assert vols - {k} - {id} == vols - {id} - {k};
    }
  }

  lemma UsedUpdated(vols: map<string, Volume>, l: string, id: string, v: Volume)
    ensures Used(vols[id := v], l) == Used(vols, l) + Held(v, l) - (if id in vols then Held(vols[id], l) else 0)
  {
    UsedWithout(vols[id := v], l, id);
    if id in vols {
      UsedWithout(vols, l, id);
      assert vols[id := v] - {id} == vols - {id};
    } else {
      assert vols[id := v] - {id} == vols;
    }
  }

  lemma {:induction false} UsedNone(vols: map<string, Volume>, l: string)
    requires forall i :: i in vols ==> !On(vols[i], l)
    ensures Used(vols, l) == 0
  {
    if vols != map[] {
      var k :| k in vols;
      UsedWithout(vols, l, k);
      UsedNone(vols - {k}, l);
    }
  }

  // ---- the shape of a store ----

  /** An LVG whose deletion has not been requested. */
  predicate Live(s: Store, l: string) {
    l in s.lvgs && !s.lvgs[l].deleting
  }

  /** A live LVG that has a drive: one that could not be built has lost it. */
  predicate Based(s: Store, l: string) {
    Live(s, l) && s.lvgs[l].locations != []
  }

  ghost predicate ACsInPlace(s: Store) {
    && (forall a, b :: a in s.acs && b in s.acs && a != b ==> s.acs[a].location != s.acs[b].location)
    && (forall a :: a in s.acs ==>
          if IsLVG(s.acs[a].sc) then Live(s, s.acs[a].location)
          else s.acs[a].location in s.drives && s.acs[a].sc == DriveClass(s.drives[s.acs[a].location]))
  }

  ghost predicate LVGsInPlace(s: Store) {
    && (forall l :: l in s.lvgs ==> l !in s.drives)
    && (forall l :: Live(s, l) ==> exists a :: ACAt(s, l, a))
    && (forall l :: Based(s, l) ==> s.lvgs[l].locations[0] in s.drives)
    && (forall l, a :: Based(s, l) && a in s.acs ==> s.acs[a].location != s.lvgs[l].locations[0])
    && (forall l, m :: Based(s, l) && Based(s, m) && l != m ==> s.lvgs[l].locations[0] != s.lvgs[m].locations[0])
  }

  ghost predicate VolumesInPlace(s: Store) {
    forall i :: i in s.volumes ==>
      && (s.volumes[i].onLVM <==> IsLVG(s.volumes[i].sc))
      && (s.volumes[i].onLVM <==> s.volumes[i].location in s.lvgs)
  }

  ghost predicate Shape(s: Store) {
    Keyed(s) && ACsInPlace(s) && LVGsInPlace(s) && VolumesInPlace(s)
  }

  ghost function ACOf(s: Store, l: string): string
    requires exists a :: ACAt(s, l, a)
  {
    var a :| ACAt(s, l, a);
    a
  }

  /** Bytes still offered by the LVG's AC plus bytes held by its volumes. */
  ghost function Balance(s: Store, l: string): int
    requires exists a :: ACAt(s, l, a)
  {
    s.acs[ACOf(s, l)].size + Used(s.volumes, l)
  }

  lemma BalanceAt(s: Store, l: string, a: string)
    requires ACsInPlace(s) && ACAt(s, l, a)
    ensures Balance(s, l) == s.acs[a].size + Used(s.volumes, l)
  {
  }

  ghost predicate Balanced(s: Store) {
    && LVGsInPlace(s)
    && forall l :: Live(s, l) ==> Balance(s, l) == s.lvgs[l].size
  }

  // ---- steps ----

  datatype Event =
    | Create(acr: ACR, num: nat, spec: VolumeSpec, ac: string, lvgName: string, paid: bool)
    | CreateWithoutPVC(failedSpec: VolumeSpec, failedAC: string, failedLVG: string)
    | Prepare(prepared: string, outcome: NodeOutcome)
    | LVGReady(lvg: string, found: bool, grouped: bool)
    | VolumeAction(id: string, action: Action)
    | Delete(deleted: string, deletedAC: string)
    | RemoveLVG(removed: string)
    | Expand(copy: Volume, requiredBytes: int, expandAC: string)
    | Settle(settled: string, settledBytes: int, settledAC: string)
    | Reservations(acrs: map<string, ACR>)

  /** A conversion applies to a drive AC and uses a name that is new in the store. */
  ghost predicate MayConvert(s: Store, v: VolumeSpec, a: string, lvgName: string) {
    && a in s.acs
    && (NeedsConversion(s.acs[a], v.sc) ==>
          && !IsLVG(s.acs[a].sc) && lvgName !in s.lvgs && lvgName !in s.drives
          && (forall b :: b in s.acs ==> s.acs[b].location != lvgName)
          && (forall i :: i in s.volumes ==> s.volumes[i].location != lvgName))
  }

  ghost predicate Enabled(s: Store, e: Event) {
    match e
    case Create(acr, num, v, a, l, _) =>
      MayConvert(s, v, a, l) && v.id !in s.volumes && num < |acr.requests| && acr.name in s.acrs
    case CreateWithoutPVC(v, a, l) => MayConvert(s, v, a, l)
    case Prepare(i, _) => i in s.volumes && s.volumes[i].status.Creating? && s.volumes[i].onLVM
    case LVGReady(l, _, _) => Live(s, l) && s.lvgs[l].status.LVGCreating?
    case VolumeAction(i, a) =>
      i in s.volumes && !a.ExpandStart? && (a.ExpandFinish? ==> forall b :: !ACAt(s, s.volumes[i].location, b))
    case RemoveLVG(l) => l in s.lvgs && s.lvgs[l].deleting && forall i :: i in s.volumes ==> s.volumes[i].location != l
    case Delete(i, a) =>
      i in s.volumes && s.volumes[i].status.Removed? && ACAt(s, s.volumes[i].location, a)
      && DriveAndLVG(s, s.volumes[i]) != (None, None)
    case Expand(c, n, a) => Expandable(c) && c.size < n && ACAt(s, c.location, a) && c.location !in s.drives
                            && (c.id in s.volumes ==> On(s.volumes[c.id], c.location))
    case Settle(i, _, a) => i in s.volumes && On(s.volumes[i], s.volumes[i].location) && ACAt(s, s.volumes[i].location, a)
    case Reservations(acrs) => forall n :: n in acrs ==> acrs[n].name == n
  }

  ghost function Apply(s: Store, e: Event): Store
    requires Keyed(s) && Enabled(s, e)
  {
    match e
    case Create(acr, num, v, a, l, paid) => VolumeCreated(s, acr, num, v, a, l, paid)
    case CreateWithoutPVC(v, a, l) => WithLVG(s, v, a, l)
    case Prepare(i, o) => PreparedInLVG(s, i, o)
    case LVGReady(l, found, grouped) => s.(lvgs := s.lvgs[l := Built(s.lvgs[l], found, grouped)])
    case VolumeAction(i, a) => s.(volumes := s.volumes[i := Act(s.volumes[i], a)])
    case Delete(i, a) => VolumeDeleted(s, i, a)
    case RemoveLVG(l) => s.(lvgs := s.lvgs - {l})
    case Expand(c, n, a) => ExpandReserved(s, c, n, a)
    case Settle(i, n, a) => ExpandSettled(s, i, n, a)
    case Reservations(acrs) => s.(acrs := acrs)
  }

  /** The change a step makes to the balance of l. */
  ghost function Effect(s: Store, e: Event, l: string): int
    requires Enabled(s, e)
  {
    match e
    case Create(_, _, v, a, n, paid) => if paid then 0 else Held(NewVolume(WithLVG(s, v, a, n).acs[a], v), l)
    case Delete(i, _) => if s.volumes[i].healthy then 0 else -Held(s.volumes[i], l)
    case Expand(c, n, a) =>
      if c.location == l && n - c.size <= s.acs[a].size && !(c.id in s.volumes && s.volumes[c.id] == c)
      then -(n - c.size) else 0
    case Settle(i, n, _) => if s.volumes[i].location == l && Refunds(s.volumes[i]) then n - s.volumes[i].size else 0
    case _ => 0
  }

  // ---- steps that move nothing ----

  /** An LVG keeps its name, its size and, unless it lost them, its drives. */
  predicate Resembles(lvg: LVG, lvg': LVG) {
    && lvg' == lvg.(status := lvg'.status, volumeRefs := lvg'.volumeRefs, locations := lvg'.locations)
    && (lvg'.locations == lvg.locations || lvg'.locations == [])
  }

  /** Sizes, statuses and references may change, but every AC and LVG stays where it is. */
  ghost predicate SamePlaces(s: Store, t: Store) {
    && s.drives == t.drives && s.acs.Keys == t.acs.Keys && s.lvgs.Keys == t.lvgs.Keys
    && (forall a :: a in s.acs ==> t.acs[a] == s.acs[a].(size := t.acs[a].size))
    && (forall l :: l in s.lvgs ==> Resembles(s.lvgs[l], t.lvgs[l]))
  }

  ghost predicate InPlace(s: Store, t: Store) {
    SamePlaces(s, t) && Keyed(t) && VolumesInPlace(t)
  }

  lemma InPlaceKeepsACs(s: Store, t: Store)
    requires ACsInPlace(s) && SamePlaces(s, t)
    ensures ACsInPlace(t)
  {
  }

  lemma InPlaceKeepsLVGs(s: Store, t: Store)
    requires LVGsInPlace(s) && SamePlaces(s, t)
    ensures LVGsInPlace(t)
  {
    forall l | Live(t, l) ensures exists a :: ACAt(t, l, a) {
      assert Live(s, l);
      var a :| ACAt(s, l, a);
      assert ACAt(t, l, a);
    }
    assert forall l :: Based(t, l) ==> Based(s, l);
  }

  lemma InPlaceKeepsShape(s: Store, t: Store)
    requires Shape(s) && InPlace(s, t)
    ensures Shape(t)
  {
    InPlaceKeepsACs(s, t);
    InPlaceKeepsLVGs(s, t);
    hide ACsInPlace, LVGsInPlace, VolumesInPlace, SamePlaces, Keyed;
  }

  lemma InPlaceBalance(s: Store, t: Store, l: string, a: string)
    requires Shape(s) && InPlace(s, t) && ACAt(s, l, a)
    ensures Shape(t) && ACAt(t, l, a)
    ensures Balance(t, l) - Balance(s, l) == t.acs[a].size - s.acs[a].size + Used(t.volumes, l) - Used(s.volumes, l)
  {
    InPlaceKeepsShape(s, t);
    BalanceAt(s, l, a);
    BalanceAt(t, l, a);
  }

  // ---- conversion ----

  lemma ConvertedLVGs(s: Store, v: VolumeSpec, a: string, l: string)
    requires Shape(s) && MayConvert(s, v, a, l) && NeedsConversion(s.acs[a], v.sc)
    ensures var t := WithLVG(s, v, a, l);
            && ACAt(t, l, a) && t.drives == s.drives && t.lvgs == s.lvgs[l := t.lvgs[l]] && Live(t, l)
            && t.lvgs[l].locations == [s.acs[a].location] && t.lvgs[l].size == UsableSize([s.acs[a]])
            && t.acs == s.acs[a := s.acs[a].(size := t.acs[a].size, location := l, sc := t.acs[a].sc)]
  {
    assert Locations([s.acs[a]]) == [s.acs[a].location];
    hide ACsInPlace, LVGsInPlace, VolumesInPlace;
  }

  /** t is s after the AC a was moved from its drive to the new LVG l. */
  ghost predicate Moved(s: Store, t: Store, a: string, l: string) {
    && a in s.acs && l in t.lvgs && l !in s.lvgs && l !in s.drives && s.acs[a].location in s.drives
    && t.drives == s.drives && t.lvgs == s.lvgs[l := t.lvgs[l]] && t.lvgs[l].locations == [s.acs[a].location]
    && a in t.acs && t.acs == s.acs[a := t.acs[a]] && t.acs[a].location == l
  }

  lemma MovedKeepsACs(s: Store, t: Store, a: string, l: string)
    requires ACsInPlace(s) && LVGsInPlace(s) && Moved(s, t, a, l)
    ensures forall m :: Live(t, m) ==> exists b :: ACAt(t, m, b)
  {
    forall m | Live(t, m) ensures exists b :: ACAt(t, m, b) {
      if m == l {
        assert ACAt(t, m, a);
      } else {
        assert Live(s, m);
        var b :| ACAt(s, m, b);
        assert ACAt(t, m, b);
      }
    }
  }

  lemma MovedKeepsDrives(s: Store, t: Store, a: string, l: string)
    requires ACsInPlace(s) && LVGsInPlace(s) && Moved(s, t, a, l)
    ensures (forall m, b :: Based(t, m) && b in t.acs ==> t.acs[b].location != t.lvgs[m].locations[0])
    ensures (forall m, k :: Based(t, m) && Based(t, k) && m != k ==> t.lvgs[m].locations[0] != t.lvgs[k].locations[0])
  {
    assert forall m :: Based(t, m) && m != l ==> Based(s, m) && t.lvgs[m] == s.lvgs[m];
  }

  lemma ConvertedGroups(s: Store, v: VolumeSpec, a: string, l: string)
    requires Shape(s) && MayConvert(s, v, a, l) && NeedsConversion(s.acs[a], v.sc)
    ensures LVGsInPlace(WithLVG(s, v, a, l)) && ACAt(WithLVG(s, v, a, l), l, a)
  {
    ConvertedLVGs(s, v, a, l);
    assert Moved(s, WithLVG(s, v, a, l), a, l);
    hide WithLVG, Keyed, VolumesInPlace, ACsInPlace, UsableSize;
    MovedKeepsACs(s, WithLVG(s, v, a, l), a, l);
    MovedKeepsDrives(s, WithLVG(s, v, a, l), a, l);
    assert forall m :: Based(WithLVG(s, v, a, l), m) && m != l ==> Based(s, m);
  }

  lemma ConvertedInPlace(s: Store, v: VolumeSpec, a: string, l: string)
    requires Keyed(s) && ACsInPlace(s) && VolumesInPlace(s) && MayConvert(s, v, a, l) && NeedsConversion(s.acs[a], v.sc)
    ensures Keyed(WithLVG(s, v, a, l)) && ACsInPlace(WithLVG(s, v, a, l)) && VolumesInPlace(WithLVG(s, v, a, l))
  {
    hide UsableSize, Locations;
    var s' := WithLVG(s, v, a, l);
    assert ACsInPlace(s');
  }

  lemma ConversionKeepsShape(s: Store, v: VolumeSpec, a: string, l: string)
    requires Shape(s) && MayConvert(s, v, a, l)
    ensures Shape(WithLVG(s, v, a, l))
  {
    if NeedsConversion(s.acs[a], v.sc) {
      ConvertedGroups(s, v, a, l);
      ConvertedInPlace(s, v, a, l);
    }
  }

  lemma ACPlace(s: Store, a: string)
    requires Shape(s) && a in s.acs
    ensures IsLVG(s.acs[a].sc) <==> s.acs[a].location in s.lvgs
    ensures s.acs[a].location in s.lvgs ==> Live(s, s.acs[a].location)
  {
  }

  /** Converting a drive moves no bytes of other LVGs. */
  lemma ConversionEffect(s: Store, v: VolumeSpec, a: string, l: string, m: string, b: string)
    requires Shape(s) && MayConvert(s, v, a, l) && Live(s, m) && ACAt(s, m, b)
    ensures Shape(WithLVG(s, v, a, l)) && Live(WithLVG(s, v, a, l), m) && ACAt(WithLVG(s, v, a, l), m, b)
    ensures Balance(WithLVG(s, v, a, l), m) == Balance(s, m)
  {
    ConversionKeepsShape(s, v, a, l);
    ACPlace(s, a);
    assert NeedsConversion(s.acs[a], v.sc) ==> b != a;
    BalanceAt(s, m, b);
    BalanceAt(WithLVG(s, v, a, l), m, b);
    hide Shape, Balance;
  }

  /** The new LVG is balanced: its AC offers exactly the size recorded in the LVG. */
  lemma NewGroup(s: Store, v: VolumeSpec, a: string, l: string, m: string)
    requires Shape(s) && MayConvert(s, v, a, l) && m in WithLVG(s, v, a, l).lvgs && m !in s.lvgs
    ensures Shape(WithLVG(s, v, a, l)) && m == l && ACAt(WithLVG(s, v, a, l), l, a)
    ensures Balance(WithLVG(s, v, a, l), l) == WithLVG(s, v, a, l).lvgs[l].size
  {
    ConversionKeepsShape(s, v, a, l);
    ConvertedGroups(s, v, a, l);
    BalanceAt(WithLVG(s, v, a, l), l, a);
    UsedNone(s.volumes, l);
  }

  // ---- the effect of each step ----

  lemma PlacedVolumes(s: Store, v: VolumeSpec, a: string, acrs: map<string, ACR>, paid: bool)
    requires VolumesInPlace(s) && a in s.acs && (IsLVG(s.acs[a].sc) <==> s.acs[a].location in s.lvgs)
    ensures VolumesInPlace(Placed(s, v, a, paid).(acrs := acrs))
  {
    hide Allocated;
  }

  lemma PlacedPlaces(s: Store, v: VolumeSpec, a: string, acrs: map<string, ACR>, paid: bool)
    requires Keyed(s) && a in s.acs && (forall n :: n in acrs ==> acrs[n].name == n)
    ensures Keyed(Placed(s, v, a, paid).(acrs := acrs)) && SamePlaces(s, Placed(s, v, a, paid).(acrs := acrs))
  {
    hide Allocated;
  }

  lemma PlacedInPlace(s: Store, v: VolumeSpec, a: string, acrs: map<string, ACR>, paid: bool)
    requires Shape(s) && a in s.acs && v.id !in s.volumes
    requires forall n :: n in acrs ==> acrs[n].name == n
    ensures InPlace(s, Placed(s, v, a, paid).(acrs := acrs))
  {
    ACPlace(s, a);
    PlacedVolumes(s, v, a, acrs, paid);
    PlacedPlaces(s, v, a, acrs, paid);
  }

  /** A volume takes from its AC what it holds, if the AC is written. */
  lemma PlacedEffect(s: Store, v: VolumeSpec, a: string, acrs: map<string, ACR>, paid: bool, l: string, b: string)
    requires Shape(s) && a in s.acs && v.id !in s.volumes && Live(s, l) && ACAt(s, l, b)
    requires forall n :: n in acrs ==> acrs[n].name == n
    ensures var t := Placed(s, v, a, paid).(acrs := acrs);
            && Shape(t) && ACAt(t, l, b)
            && Balance(t, l) == Balance(s, l) + if paid then 0 else Held(NewVolume(s.acs[a], v), l)
  {
    var t := Placed(s, v, a, paid).(acrs := acrs);
    PlacedInPlace(s, v, a, acrs, paid);
    InPlaceBalance(s, t, l, b);
    UsedUpdated(s.volumes, l, v.id, NewVolume(s.acs[a], v));
    OneACAt(s, l, a, b);
    ACPlace(s, a);
    hide LVGsInPlace, ACsInPlace, VolumesInPlace, Allocated, InPlace, Used, Balance;
    assert t.acs[b].size - s.acs[b].size == if paid then -Held(NewVolume(s.acs[a], v), l) else 0;
  }

  ghost function Rewritten(s: Store, v: Volume, acs: map<string, AC>, lvgs: map<string, LVG>): Store {
    s.(acs := acs, volumes := s.volumes[v.id := v], lvgs := lvgs)
  }

  /** One volume is written, with AC sizes and the status and references of LVGs changing at will. */
  ghost predicate Rewrites(s: Store, v: Volume, acs: map<string, AC>, lvgs: map<string, LVG>) {
    && v.id in s.volumes && SamePlaces(s, s.(acs := acs, lvgs := lvgs))
    && v == s.volumes[v.id].(size := v.size, status := v.status, missing := v.missing, owners := v.owners,
         previousStatus := v.previousStatus, previousCapacity := v.previousCapacity)
  }

  lemma RewrittenInPlace(s: Store, v: Volume, acs: map<string, AC>, lvgs: map<string, LVG>)
    requires Shape(s) && Rewrites(s, v, acs, lvgs)
    ensures InPlace(s, Rewritten(s, v, acs, lvgs))
  {
    hide LVGsInPlace, ACsInPlace;
  }

  lemma RewrittenEffect(s: Store, v: Volume, acs: map<string, AC>, lvgs: map<string, LVG>, l: string, b: string)
    requires Shape(s) && Rewrites(s, v, acs, lvgs) && Live(s, l) && ACAt(s, l, b)
    ensures Shape(Rewritten(s, v, acs, lvgs)) && ACAt(Rewritten(s, v, acs, lvgs), l, b)
    ensures Balance(Rewritten(s, v, acs, lvgs), l) ==
              Balance(s, l) + acs[b].size - s.acs[b].size + Held(v, l) - Held(s.volumes[v.id], l)
  {
    RewrittenInPlace(s, v, acs, lvgs);
    InPlaceBalance(s, Rewritten(s, v, acs, lvgs), l, b);
    UsedUpdated(s.volumes, l, v.id, v);
  }

  /** Status changes touch neither size nor place. */
  lemma ActKeepsBytes(v: Volume, a: Action)
    requires !a.ExpandStart? && !a.ExpandFinish?
    ensures Act(v, a) == v.(status := Act(v, a).status, missing := Act(v, a).missing, owners := Act(v, a).owners)
  {
  }

  // ---- deletion ----

  /** The deletion of the volume's LVG is requested with it. */
  predicate Drops(s: Store, v: Volume) {
    v.onLVM && v.location in s.lvgs && s.lvgs[v.location].locations != [] && |s.lvgs[v.location].volumeRefs| <= 1
  }

  ghost predicate LastOn(s: Store, id: string) {
    id in s.volumes && forall j :: j in s.volumes && On(s.volumes[j], s.volumes[id].location) ==> j == id
  }

  lemma DeletedPlaces(s: Store, id: string, a: string)
    requires Shape(s) && id in s.volumes && ACAt(s, s.volumes[id].location, a) && !Drops(s, s.volumes[id])
    ensures SamePlaces(s, VolumeDeleted(s, id, a)) && Keyed(VolumeDeleted(s, id, a))
  {
    hide ACsInPlace, Without;
  }

  lemma DeletedInPlace(s: Store, id: string, a: string)
    requires Shape(s) && id in s.volumes && ACAt(s, s.volumes[id].location, a) && !Drops(s, s.volumes[id])
    ensures InPlace(s, VolumeDeleted(s, id, a))
  {
    DeletedPlaces(s, id, a);
    hide ACsInPlace, LVGsInPlace, Without, LVGsAfterDeletion, ACAfterDeletion, DriveAndLVG;
    assert VolumesInPlace(VolumeDeleted(s, id, a));
  }

  /** The store after a deletion that drops the LVG: its AC is back on the LVG's first drive. */
  ghost function Dropped(s: Store, id: string, a: string): Store
    requires id in s.volumes && a in s.acs && Drops(s, s.volumes[id])
    requires LVGsInPlace(s) && Live(s, s.volumes[id].location)
  {
    var v := s.volumes[id];
    var d := s.lvgs[v.location].locations[0];
    var size := s.acs[a].size + if v.healthy then v.size else 0;
    s.(acs := s.acs[a := s.acs[a].(location := d, sc := DriveClass(s.drives[d]), size := size)],
       lvgs := s.lvgs[v.location := s.lvgs[v.location].(deleting := true)], volumes := s.volumes - {id})
  }

  lemma DeletedIsDropped(s: Store, id: string, a: string)
    requires Shape(s) && id in s.volumes && ACAt(s, s.volumes[id].location, a) && Drops(s, s.volumes[id])
    ensures Based(s, s.volumes[id].location) && VolumeDeleted(s, id, a) == Dropped(s, id, a)
  {
    ACPlace(s, a);
    hide ACsInPlace;
  }

  lemma DroppedACs(s: Store, id: string, a: string)
    requires Shape(s) && id in s.volumes && ACAt(s, s.volumes[id].location, a) && Drops(s, s.volumes[id])
    ensures Based(s, s.volumes[id].location) && ACsInPlace(Dropped(s, id, a))
  {
    ACPlace(s, a);
    hide VolumesInPlace;
    var t := Dropped(s, id, a);
    forall b | b in t.acs && b != a ensures t.acs[b].location != t.acs[a].location && t.acs[b].location != s.volumes[id].location {}
  }

  lemma DroppedKeepsACs(s: Store, id: string, a: string, m: string)
    requires Shape(s) && id in s.volumes && ACAt(s, s.volumes[id].location, a) && Drops(s, s.volumes[id])
    requires Live(s, s.volumes[id].location) && Live(Dropped(s, id, a), m)
    ensures exists b :: ACAt(Dropped(s, id, a), m, b)
  {
    assert Live(s, m);
    var b :| ACAt(s, m, b);
    assert ACAt(Dropped(s, id, a), m, b);
  }

  lemma DroppedLVGs(s: Store, id: string, a: string)
    requires Shape(s) && id in s.volumes && ACAt(s, s.volumes[id].location, a) && Drops(s, s.volumes[id])
    ensures Based(s, s.volumes[id].location) && LVGsInPlace(Dropped(s, id, a))
  {
    ACPlace(s, a);
    var t := Dropped(s, id, a);
    forall m | Live(t, m) ensures exists b :: ACAt(t, m, b) { DroppedKeepsACs(s, id, a, m); }
    hide ACsInPlace, VolumesInPlace, Keyed, ACAt;
  }

  lemma DeleteKeepsShape(s: Store, id: string, a: string)
    requires Shape(s) && id in s.volumes && ACAt(s, s.volumes[id].location, a)
    ensures Shape(VolumeDeleted(s, id, a))
  {
    if Drops(s, s.volumes[id]) {
      DeletedIsDropped(s, id, a);
      DroppedACs(s, id, a);
      DroppedLVGs(s, id, a);
      hide ACsInPlace, LVGsInPlace, VolumeDeleted;
    } else {
      DeletedInPlace(s, id, a);
      InPlaceKeepsShape(s, VolumeDeleted(s, id, a));
    }
  }

  lemma DeletedEffect(s: Store, id: string, a: string, m: string, b: string)
    requires Shape(s) && id in s.volumes && ACAt(s, s.volumes[id].location, a) && ACAt(s, m, b)
    requires Live(VolumeDeleted(s, id, a), m)
    ensures Live(s, m) && Shape(VolumeDeleted(s, id, a)) && ACAt(VolumeDeleted(s, id, a), m, b)
    ensures Balance(VolumeDeleted(s, id, a), m) == Balance(s, m) - if s.volumes[id].healthy then 0 else Held(s.volumes[id], m)
  {
    var v, t := s.volumes[id], VolumeDeleted(s, id, a);
    DeleteKeepsShape(s, id, a);
    UsedWithout(s.volumes, m, id);
    OneACAt(s, v.location, b, a);
    BalanceAt(s, m, b);
    if Drops(s, v) {
      DeletedIsDropped(s, id, a);
      hide ACsInPlace, LVGsInPlace, VolumesInPlace, VolumeDeleted;
      BalanceAt(t, m, b);
    } else {
      DeletedInPlace(s, id, a);
      LVMVolumeAt(s, id);
      hide ACsInPlace, LVGsInPlace, VolumesInPlace, SamePlaces, Keyed;
      InPlaceBalance(s, t, m, b);
    }
  }

  lemma LVMVolumeAt(s: Store, i: string)
    requires VolumesInPlace(s) && i in s.volumes
    ensures s.volumes[i].onLVM <==> s.volumes[i].location in s.lvgs
    ensures s.volumes[i].onLVM <==> IsLVG(s.volumes[i].sc)
  {
  }

  lemma OneACAt(s: Store, l: string, a: string, b: string)
    requires ACsInPlace(s) && a in s.acs && ACAt(s, l, b)
    ensures s.acs[a].location == l <==> a == b
  {
  }

  /** A deletion that drops a balanced LVG moves the AC back to the drive, with the drive's class, and short by
      exactly what the volumes hold that are still on the LVG. */
  lemma DropReturnsTheRest(s: Store, id: string, a: string)
    requires Shape(s) && Balanced(s) && id in s.volumes && ACAt(s, s.volumes[id].location, a)
    requires Drops(s, s.volumes[id]) && s.volumes[id].healthy
    ensures var l := s.volumes[id].location;
            var lvg, t := s.lvgs[l], VolumeDeleted(s, id, a);
            && lvg.locations[0] in s.drives
            && t.acs[a] == s.acs[a].(location := lvg.locations[0], sc := DriveClass(s.drives[lvg.locations[0]]),
                                     size := lvg.size - Used(t.volumes, l))
  {
    var l := s.volumes[id].location;
    DeletedIsDropped(s, id, a);
    BalanceAt(s, l, a);
    UsedWithout(s.volumes, l, id);
    hide ACsInPlace, VolumesInPlace, VolumeDeleted, Used;
  }

  /** When nothing is left on it, that is the whole LVG. */
  lemma LastVolumeReturnsTheDrive(s: Store, id: string, a: string)
    requires Shape(s) && Balanced(s) && LastOn(s, id) && ACAt(s, s.volumes[id].location, a)
    requires Drops(s, s.volumes[id]) && s.volumes[id].healthy
    ensures var lvg := s.lvgs[s.volumes[id].location];
            && lvg.locations[0] in s.drives
            && VolumeDeleted(s, id, a).acs[a] ==
                 s.acs[a].(location := lvg.locations[0], sc := DriveClass(s.drives[lvg.locations[0]]), size := lvg.size)
  {
    DropReturnsTheRest(s, id, a);
    UsedNone(VolumeDeleted(s, id, a).volumes, s.volumes[id].location);
    hide Shape, Balanced;
  }

  // ---- every step ----

  lemma CreationKeepsShape(s: Store, acr: ACR, num: nat, v: VolumeSpec, a: string, n: string, paid: bool)
    requires Shape(s) && Enabled(s, Create(acr, num, v, a, n, paid))
    ensures Shape(VolumeCreated(s, acr, num, v, a, n, paid))
  {
    ConversionKeepsShape(s, v, a, n);
    var m := WithLVG(s, v, a, n);
    PlacedInPlace(m, v, a, Released(m.acrs, acr, num), paid);
    InPlaceKeepsShape(m, VolumeCreated(s, acr, num, v, a, n, paid));
    hide Shape, InPlace;
  }

  lemma CreationEffect(s: Store, acr: ACR, num: nat, v: VolumeSpec, a: string, n: string, paid: bool, l: string, b: string)
    requires Shape(s) && Enabled(s, Create(acr, num, v, a, n, paid))
    requires Live(WithLVG(s, v, a, n), l) && ACAt(WithLVG(s, v, a, n), l, b)
    ensures var t := VolumeCreated(s, acr, num, v, a, n, paid);
            && Shape(t) && t.lvgs == WithLVG(s, v, a, n).lvgs && ACAt(t, l, b) && a in WithLVG(s, v, a, n).acs
            && Balance(t, l) == Balance(WithLVG(s, v, a, n), l) + if paid then 0 else Held(NewVolume(WithLVG(s, v, a, n).acs[a], v), l)
  {
    ConversionKeepsShape(s, v, a, n);
    var m := WithLVG(s, v, a, n);
    PlacedEffect(m, v, a, Released(m.acrs, acr, num), paid, l, b);
    hide Shape, Balance, Held;
  }

  lemma ResizedPlaces(s: Store, a: string, size: int)
    requires a in s.acs
    ensures SamePlaces(s, s.(acs := s.acs[a := s.acs[a].(size := size)], lvgs := s.lvgs))
  {
  }

  lemma PreparedPlaces(s: Store, l: string, refs: seq<string>)
    requires l in s.lvgs
    ensures SamePlaces(s, s.(acs := s.acs, lvgs := s.lvgs[l := s.lvgs[l].(volumeRefs := refs)]))
  {
  }

  lemma PreparedIsRewritten(s: Store, i: string, o: NodeOutcome) returns (v: Volume, lvgs: map<string, LVG>)
    requires Keyed(s) && i in s.volumes && s.volumes[i].status.Creating?
    ensures Rewrites(s, v, s.acs, lvgs) && PreparedInLVG(s, i, o) == Rewritten(s, v, s.acs, lvgs)
    ensures v.size == s.volumes[i].size && v.id == i
  {
    var was := s.volumes[i];
    assert was.id == i;
    hide Keyed;
    v, lvgs := PreparedInLVG(s, i, o).volumes[i], PreparedInLVG(s, i, o).lvgs;
    PreparedVolume(s, i, o);
    PreparedGroups(s, i, o);
    hide SamePlaces, PreparedInLVG;
  }

  lemma PreparedVolume(s: Store, i: string, o: NodeOutcome)
    requires i in s.volumes && s.volumes[i].status.Creating?
    ensures var t := PreparedInLVG(s, i, o);
            && i in t.volumes && t == s.(volumes := s.volumes[i := t.volumes[i]], lvgs := t.lvgs)
            && t.volumes[i] == s.volumes[i].(status := t.volumes[i].status)
  {
    assert s.volumes[i := s.volumes[i]] == s.volumes;
  }

  lemma PreparedGroups(s: Store, i: string, o: NodeOutcome)
    requires i in s.volumes
    ensures SamePlaces(s, s.(acs := s.acs, lvgs := PreparedInLVG(s, i, o).lvgs))
  {
    hide Reconciled;
    var l := s.volumes[i].location;
    if l in s.lvgs { PreparedPlaces(s, l, s.lvgs[l].volumeRefs + [i]); }
  }

  lemma ExpandIsRewritten(s: Store, c: Volume, n: int, a: string)
    requires Shape(s) && a in s.acs && Expandable(c) && n - c.size <= s.acs[a].size
    requires c.id in s.volumes && s.volumes[c.id] == c
    ensures var acs := s.acs[a := s.acs[a].(size := s.acs[a].size - (n - c.size))];
            && ExpandReserved(s, c, n, a) == Rewritten(s, ExpandStarted(c, n), acs, s.lvgs)
            && Rewrites(s, ExpandStarted(c, n), acs, s.lvgs)
  {
    hide Shape;
    ResizedPlaces(s, a, s.acs[a].size - (n - c.size));
  }

  lemma ResizedInPlace(s: Store, a: string, size: int)
    requires Shape(s) && a in s.acs
    ensures InPlace(s, s.(acs := s.acs[a := s.acs[a].(size := size)]))
  {
    var t := s.(acs := s.acs[a := s.acs[a].(size := size)]);
    ResizedPlaces(s, a, size);
    assert t == s.(acs := s.acs[a := s.acs[a].(size := size)], lvgs := s.lvgs);
    hide ACsInPlace, LVGsInPlace, SamePlaces;
  }

  lemma ExpandEffect(s: Store, c: Volume, n: int, a: string, l: string, b: string)
    requires Shape(s) && Enabled(s, Expand(c, n, a)) && Live(s, l) && ACAt(s, l, b)
    ensures Shape(ExpandReserved(s, c, n, a)) && ACAt(ExpandReserved(s, c, n, a), l, b)
    ensures Balance(ExpandReserved(s, c, n, a), l) == Balance(s, l) + Effect(s, Expand(c, n, a), l)
  {
    hide ACsInPlace, LVGsInPlace, VolumesInPlace, SamePlaces, Keyed, Used, Balance, InPlace, Rewrites;
    OneACAt(s, l, a, b);
    if n - c.size <= s.acs[a].size {
      if c.id in s.volumes && s.volumes[c.id] == c {
        LVMVolumeAt(s, c.id);
        ExpandIsRewritten(s, c, n, a);
        RewrittenEffect(s, ExpandStarted(c, n), s.acs[a := s.acs[a].(size := s.acs[a].size - (n - c.size))], s.lvgs, l, b);
      } else {
        ResizedInPlace(s, a, s.acs[a].size - (n - c.size));
        InPlaceBalance(s, s.(acs := s.acs[a := s.acs[a].(size := s.acs[a].size - (n - c.size))]), l, b);
      }
    }
  }

  lemma SettleIsRewritten(s: Store, i: string, n: int, a: string)
    requires Keyed(s) && i in s.volumes && a in s.acs
    ensures s.volumes[i].id == i
    ensures var t := ExpandSettled(s, i, n, a);
            t == Rewritten(s, ExpandFinished(s.volumes[i]), t.acs, s.lvgs) && Rewrites(s, ExpandFinished(s.volumes[i]), t.acs, s.lvgs)
  {
    var t := ExpandSettled(s, i, n, a);
    assert s.volumes[i].id == i;
    hide Keyed;
    ResizedPlaces(s, a, t.acs[a].size);
    assert t.acs == s.acs[a := s.acs[a].(size := t.acs[a].size)];
    hide SamePlaces;
  }

  lemma SettleEffect(s: Store, i: string, n: int, a: string, l: string, b: string)
    requires Shape(s) && Enabled(s, Settle(i, n, a)) && Live(s, l) && ACAt(s, l, b)
    ensures Shape(ExpandSettled(s, i, n, a)) && ACAt(ExpandSettled(s, i, n, a), l, b)
    ensures Balance(ExpandSettled(s, i, n, a), l) == Balance(s, l) + Effect(s, Settle(i, n, a), l)
  {
    hide ACsInPlace, LVGsInPlace, VolumesInPlace, SamePlaces, Keyed, Used, Balance, Rewrites, Rewritten;
    OneACAt(s, l, a, b);
    SettleIsRewritten(s, i, n, a);
    RewrittenEffect(s, ExpandFinished(s.volumes[i]), ExpandSettled(s, i, n, a).acs, s.lvgs, l, b);
  }

  lemma ReadyInPlace(s: Store, l: string, found: bool, grouped: bool)
    requires Shape(s) && l in s.lvgs
    ensures InPlace(s, s.(lvgs := s.lvgs[l := Built(s.lvgs[l], found, grouped)]))
  {
    hide ACsInPlace, LVGsInPlace;
  }

  lemma ReservationsInPlace(s: Store, acrs: map<string, ACR>)
    requires Shape(s) && forall n :: n in acrs ==> acrs[n].name == n
    ensures InPlace(s, s.(acrs := acrs))
  {
    hide ACsInPlace, LVGsInPlace;
  }

  lemma ActionIsRewritten(s: Store, i: string, a: Action)
    requires Keyed(s) && i in s.volumes && !a.ExpandStart?
    ensures s.(volumes := s.volumes[i := Act(s.volumes[i], a)]) == Rewritten(s, Act(s.volumes[i], a), s.acs, s.lvgs)
    ensures Rewrites(s, Act(s.volumes[i], a), s.acs, s.lvgs) && Act(s.volumes[i], a).id == i
    ensures !a.ExpandFinish? ==> Act(s.volumes[i], a).size == s.volumes[i].size
  {
    if !a.ExpandFinish? { ActKeepsBytes(s.volumes[i], a); }
    assert s.volumes[i].id == i && SamePlaces(s, s.(acs := s.acs, lvgs := s.lvgs));
    hide Keyed, Act, SamePlaces;
  }

  lemma QuietInPlace(s: Store, e: Event)
    requires Shape(s) && Enabled(s, e) && !e.Delete? && !e.RemoveLVG? && !e.Create? && !e.CreateWithoutPVC?
    ensures InPlace(s, Apply(s, e))
  {
    hide ACsInPlace, LVGsInPlace, VolumesInPlace, Keyed, MayConvert, SamePlaces, Act, Rewrites;
    match e
    case Prepare(i, o) =>
      var v, lvgs := PreparedIsRewritten(s, i, o);
      RewrittenInPlace(s, v, s.acs, lvgs);
    case LVGReady(l, found, grouped) => ReadyInPlace(s, l, found, grouped);
    case VolumeAction(i, a) =>
      ActionIsRewritten(s, i, a);
      RewrittenInPlace(s, Act(s.volumes[i], a), s.acs, s.lvgs);
    case Expand(c, n, a) => ExpandInPlace(s, c, n, a);
    case Settle(i, n, a) =>
      SettleIsRewritten(s, i, n, a);
      RewrittenInPlace(s, ExpandFinished(s.volumes[i]), Apply(s, e).acs, s.lvgs);
    case Reservations(acrs) => ReservationsInPlace(s, acrs);
  }

  lemma StaysInPlace(s: Store)
    requires Shape(s)
    ensures InPlace(s, s)
  {
  }

  lemma ExpandInPlace(s: Store, c: Volume, n: int, a: string)
    requires Shape(s) && Enabled(s, Expand(c, n, a))
    ensures InPlace(s, ExpandReserved(s, c, n, a))
  {
    hide ACsInPlace, LVGsInPlace, VolumesInPlace, SamePlaces, Keyed, InPlace, Rewrites;
    if n - c.size > s.acs[a].size {
      StaysInPlace(s);
    } else if c.id in s.volumes && s.volumes[c.id] == c {
      ExpandIsRewritten(s, c, n, a);
      RewrittenInPlace(s, ExpandStarted(c, n), ExpandReserved(s, c, n, a).acs, s.lvgs);
    } else {
      ResizedInPlace(s, a, s.acs[a].size - (n - c.size));
    }
    hide Shape, InPlace;
  }

  lemma RemovalKeepsLVGs(s: Store, l: string)
    requires LVGsInPlace(s) && l in s.lvgs && s.lvgs[l].deleting
    ensures LVGsInPlace(s.(lvgs := s.lvgs - {l}))
  {
    var t := s.(lvgs := s.lvgs - {l});
    forall m | Live(t, m) ensures exists a :: ACAt(t, m, a) {
      assert Live(s, m);
      var a :| ACAt(s, m, a);
      assert ACAt(t, m, a);
    }
    assert forall m :: Based(t, m) ==> Based(s, m);
  }

  /** The CR of a deleted LVG goes once no volume lies on it. */
  lemma RemovalKeepsShape(s: Store, l: string)
    requires Shape(s) && Enabled(s, RemoveLVG(l))
    ensures Shape(s.(lvgs := s.lvgs - {l}))
  {
    RemovalKeepsLVGs(s, l);
    hide LVGsInPlace;
  }

  lemma RemovalEffect(s: Store, l: string, m: string, b: string)
    requires Shape(s) && Enabled(s, RemoveLVG(l)) && Live(s, m) && ACAt(s, m, b)
    ensures Shape(s.(lvgs := s.lvgs - {l})) && ACAt(s.(lvgs := s.lvgs - {l}), m, b)
    ensures Balance(s.(lvgs := s.lvgs - {l}), m) == Balance(s, m)
  {
    RemovalKeepsShape(s, l);
    BalanceAt(s, m, b);
    BalanceAt(s.(lvgs := s.lvgs - {l}), m, b);
  }

  /** Every step leaves every AC at a drive or an LVG of its own. */
  lemma StepKeepsShape(s: Store, e: Event)
    requires Shape(s) && Enabled(s, e)
    ensures Shape(Apply(s, e))
  {
    hide ACsInPlace, LVGsInPlace, VolumesInPlace, Keyed, MayConvert, InPlace;
    match e
    case Delete(i, a) => DeleteKeepsShape(s, i, a);
    case RemoveLVG(l) => RemovalKeepsShape(s, l);
    case Create(acr, num, v, a, n, paid) => CreationKeepsShape(s, acr, num, v, a, n, paid);
    case CreateWithoutPVC(v, a, n) => ConversionKeepsShape(s, v, a, n);
    case _ =>
      QuietInPlace(s, e);
      InPlaceKeepsShape(s, Apply(s, e));
  }

  ghost predicate KeepsGroups(s: Store, t: Store) {
    forall l :: l in t.lvgs && l in s.lvgs ==>
      && t.lvgs[l].size == s.lvgs[l].size && (s.lvgs[l].deleting ==> t.lvgs[l] == s.lvgs[l].(volumeRefs := t.lvgs[l].volumeRefs))
      && (t.lvgs[l].locations == s.lvgs[l].locations || t.lvgs[l].locations == [])
  }

  lemma DeletionKeepsGroups(s: Store, i: string, a: string)
    requires Shape(s) && i in s.volumes && ACAt(s, s.volumes[i].location, a)
    ensures KeepsGroups(s, VolumeDeleted(s, i, a)) && VolumeDeleted(s, i, a).lvgs.Keys == s.lvgs.Keys
  {
    ACPlace(s, a);
    hide ACsInPlace, LVGsInPlace, Without;
  }

  lemma ConversionKeepsGroups(s: Store, v: VolumeSpec, a: string, l: string)
    requires MayConvert(s, v, a, l)
    ensures KeepsGroups(s, WithLVG(s, v, a, l)) && s.lvgs.Keys <= WithLVG(s, v, a, l).lvgs.Keys
  {
  }

  lemma PreparedKeepsGroups(s: Store, i: string, o: NodeOutcome)
    requires i in s.volumes
    ensures KeepsGroups(s, PreparedInLVG(s, i, o)) && PreparedInLVG(s, i, o).lvgs.Keys == s.lvgs.Keys
  {
    hide Reconciled;
  }

  /** An LVG never changes its size, it keeps its drives or loses them, only a create can bring a new one, and no step takes a deletion back. */
  lemma StepKeepsGroups(s: Store, e: Event)
    requires Shape(s) && Enabled(s, e)
    ensures KeepsGroups(s, Apply(s, e))
    ensures !e.Create? && !e.CreateWithoutPVC? ==> Apply(s, e).lvgs.Keys <= s.lvgs.Keys
    ensures !e.RemoveLVG? ==> s.lvgs.Keys <= Apply(s, e).lvgs.Keys
  {
    hide ACsInPlace, LVGsInPlace, VolumesInPlace, Act, Reconciled, ExpandFinished, ExpandStarted, UsableSize, Locations;
    if e.Delete? { DeletionKeepsGroups(s, e.deleted, e.deletedAC); }
    if e.Prepare? { PreparedKeepsGroups(s, e.prepared, e.outcome); }
    if e.Create? { ConversionKeepsGroups(s, e.spec, e.ac, e.lvgName); }
    if e.CreateWithoutPVC? { ConversionKeepsGroups(s, e.failedSpec, e.failedAC, e.failedLVG); }
    hide Keyed, PreparedInLVG, VolumeDeleted, WithLVG, MayConvert, Allocated, Released;
  }

  lemma StatusEffect(s: Store, e: Event, l: string, b: string)
    requires Shape(s) && Enabled(s, e) && Live(s, l) && ACAt(s, l, b)
    requires e.Prepare? || e.VolumeAction? || e.LVGReady? || e.Reservations?
    ensures Shape(Apply(s, e)) && ACAt(Apply(s, e), l, b) && Balance(Apply(s, e), l) == Balance(s, l)
  {
    hide ACsInPlace, LVGsInPlace, VolumesInPlace, Keyed, InPlace, Used, Balance, Rewrites, SamePlaces, Act;
    if e.Prepare? {
      var v, lvgs := PreparedIsRewritten(s, e.prepared, e.outcome);
      RewrittenEffect(s, v, s.acs, lvgs, l, b);
      HeldIsKept(s, v, s.acs, lvgs, l);
    } else if e.VolumeAction? {
      ActionIsRewritten(s, e.id, e.action);
      RewrittenEffect(s, Act(s.volumes[e.id], e.action), s.acs, s.lvgs, l, b);
      assert e.action.ExpandFinish? ==> s.volumes[e.id].location != l;
      HeldIsKept(s, Act(s.volumes[e.id], e.action), s.acs, s.lvgs, l);
    } else {
      QuietInPlace(s, e);
      InPlaceBalance(s, Apply(s, e), l, b);
    }
  }

  lemma HeldIsKept(s: Store, v: Volume, acs: map<string, AC>, lvgs: map<string, LVG>, l: string)
    requires Rewrites(s, v, acs, lvgs) && (v.size == s.volumes[v.id].size || s.volumes[v.id].location != l)
    ensures Held(v, l) == Held(s.volumes[v.id], l)
  {
  }

  lemma CreatesEffect(s: Store, e: Event, l: string, b: string)
    requires Shape(s) && Enabled(s, e) && Live(s, l) && ACAt(s, l, b) && (e.Create? || e.CreateWithoutPVC?)
    ensures Shape(Apply(s, e)) && ACAt(Apply(s, e), l, b) && Balance(Apply(s, e), l) == Balance(s, l) + Effect(s, e, l)
  {
    hide Shape, MayConvert, Used, Balance, VolumeCreated, WithLVG, Held;
    if e.Create? {
      ConversionEffect(s, e.spec, e.ac, e.lvgName, l, b);
      CreationEffect(s, e.acr, e.num, e.spec, e.ac, e.lvgName, e.paid, l, b);
    } else {
      ConversionEffect(s, e.failedSpec, e.failedAC, e.failedLVG, l, b);
    }
  }

  /** The change of a group's balance is exactly the effect of the step. */
  lemma StepEffect(s: Store, e: Event, l: string, b: string)
    requires Shape(s) && Enabled(s, e) && Live(s, l) && Live(Apply(s, e), l) && ACAt(s, l, b)
    ensures Shape(Apply(s, e)) && ACAt(Apply(s, e), l, b)
    ensures Balance(Apply(s, e), l) == Balance(s, l) + Effect(s, e, l)
  {
    hide ACsInPlace, LVGsInPlace, VolumesInPlace, Keyed, MayConvert, Used, Balance;
    hide VolumeCreated, VolumeDeleted, WithLVG, ExpandReserved, ExpandSettled, PreparedInLVG, Act;
    StepKeepsShape(s, e);
    if e.Delete? {
      DeletedEffect(s, e.deleted, e.deletedAC, l, b);
    } else if e.RemoveLVG? {
      RemovalEffect(s, e.removed, l, b);
    } else if e.Create? || e.CreateWithoutPVC? {
      CreatesEffect(s, e, l, b);
    } else if e.Expand? {
      ExpandEffect(s, e.copy, e.requiredBytes, e.expandAC, l, b);
    } else if e.Settle? {
      SettleEffect(s, e.settled, e.settledBytes, e.settledAC, l, b);
    } else {
      StatusEffect(s, e, l, b);
    }
  }

  /** A new group starts with the effect of the step that made it. */
  lemma NewGroupEffect(s: Store, e: Event, l: string)
    requires Shape(s) && Enabled(s, e) && !Live(s, l) && Live(Apply(s, e), l)
    ensures Shape(Apply(s, e)) && Balance(Apply(s, e), l) == Apply(s, e).lvgs[l].size + Effect(s, e, l)
  {
    StepKeepsShape(s, e);
    StepKeepsGroups(s, e);
    hide ACsInPlace, LVGsInPlace, VolumesInPlace, Keyed, MayConvert, InPlace, Used, Balance, KeepsGroups, Held;
    match e
    case Create(acr, num, v, a, n, paid) =>
      NewGroup(s, v, a, n, l);
      CreationEffect(s, acr, num, v, a, n, paid, l, a);
    case CreateWithoutPVC(v, a, n) => NewGroup(s, v, a, n, l);
    case _ =>
  }

  /** Steps that move as many bytes out of the AC as into volumes: the AC of a new LVM volume is
      written, a deleted volume gives its bytes back, an expansion is reserved on a current copy, and a refund names the size that was reserved. */
  ghost predicate Clean(s: Store, e: Event)
    requires Enabled(s, e)
  {
    match e
    case Create(_, _, v, a, _, paid) => paid || v.size == 0 || !(IsLVG(s.acs[a].sc) || NeedsConversion(s.acs[a], v.sc))
    case Delete(i, _) =>
      var v := s.volumes[i];
      v.healthy || !v.onLVM || v.size == 0 || Drops(s, v)
    case Expand(c, n, a) =>
      s.acs[a].size < n - c.size || (c.id in s.volumes && s.volumes[c.id] == c)
    case Settle(i, n, _) => Refunds(s.volumes[i]) ==> n == s.volumes[i].size
    case _ => true
  }

  /** A live LVG stays live until a deletion drops it. */
  lemma KeptUnlessDropped(s: Store, e: Event, l: string)
    requires Shape(s) && Enabled(s, e) && Live(s, l)
    ensures Live(Apply(s, e), l) <==> !(e.Delete? && Drops(s, s.volumes[e.deleted]) && s.volumes[e.deleted].location == l)
  {
    hide ACsInPlace, LVGsInPlace, VolumesInPlace, Keyed, MayConvert, VolumeDeleted, LastOn;
    if e.Delete? {
      if Drops(s, s.volumes[e.deleted]) {
        DeletedIsDropped(s, e.deleted, e.deletedAC);
      } else {
        DeletedPlaces(s, e.deleted, e.deletedAC);
      }
    } else if !e.RemoveLVG? && !e.Create? && !e.CreateWithoutPVC? {
      QuietInPlace(s, e);
      hide Apply, Enabled;
    }
  }

  /** The LVG whose balance a step may change. */
  ghost function Site(s: Store, e: Event): string
    requires Enabled(s, e) && Keyed(s)
  {
    match e
    case Create(_, _, v, a, n, _) => WithLVG(s, v, a, n).acs[a].location
    case Delete(i, _) => s.volumes[i].location
    case Expand(c, _, _) => c.location
    case Settle(i, _, _) => s.volumes[i].location
    case _ => ""
  }

  lemma NoEffectElsewhere(s: Store, e: Event, l: string)
    requires Keyed(s) && Enabled(s, e) && l != Site(s, e)
    ensures Effect(s, e, l) == 0
  {
  }

  lemma CleanCreate(s: Store, e: Event)
    requires Shape(s) && Enabled(s, e) && e.Create?
    ensures Clean(s, e) <==> (Live(Apply(s, e), Site(s, e)) ==> Effect(s, e, Site(s, e)) == 0)
  {
    var m := WithLVG(s, e.spec, e.ac, e.lvgName);
    ConversionKeepsShape(s, e.spec, e.ac, e.lvgName);
    ACPlace(m, e.ac);
    hide ACsInPlace, LVGsInPlace, VolumesInPlace, MayConvert, UsableSize, Locations, Released;
    assert IsLVG(m.acs[e.ac].sc) <==> IsLVG(s.acs[e.ac].sc) || NeedsConversion(s.acs[e.ac], e.spec.sc);
    assert AlignPE(e.spec.size) == 0 <==> e.spec.size == 0;
  }

  /** Clean is what a caller can check: it says that the step has no effect on any LVG that is live afterwards. */
  lemma CleanIffNoEffect(s: Store, e: Event)
    requires Shape(s) && Enabled(s, e)
    ensures Clean(s, e) <==> forall l :: Live(Apply(s, e), l) ==> Effect(s, e, l) == 0
  {
    if e.Create? {
      CleanCreate(s, e);
    } else if e.Delete? || e.Expand? || e.Settle? {
      var a := if e.Delete? then e.deletedAC else if e.Expand? then e.expandAC else e.settledAC;
      ACPlace(s, a);
      if Live(s, Site(s, e)) { KeptUnlessDropped(s, e, Site(s, e)); }
    }
    hide Apply, ACsInPlace, LVGsInPlace, VolumesInPlace, MayConvert, KeepsGroups, WithLVG;
    forall l | l != Site(s, e) ensures Effect(s, e, l) == 0 { NoEffectElsewhere(s, e, l); }
    assert !e.Create? ==> (Clean(s, e) <==> Live(Apply(s, e), Site(s, e)) ==> Effect(s, e, Site(s, e)) == 0);
  }

  lemma StepBalance(s: Store, e: Event, l: string)
    requires Shape(s) && Balanced(s) && Enabled(s, e) && Live(Apply(s, e), l)
    ensures exists a :: ACAt(Apply(s, e), l, a)
    ensures Balance(Apply(s, e), l) == Apply(s, e).lvgs[l].size + Effect(s, e, l)
  {
    StepKeepsShape(s, e);
    StepKeepsGroups(s, e);
    var b :| ACAt(Apply(s, e), l, b);
    if Live(s, l) {
      var b :| ACAt(s, l, b);
      StepEffect(s, e, l, b);
    } else {
      NewGroupEffect(s, e, l);
    }
    hide Effect, Apply, Balance, Enabled, ACsInPlace, VolumesInPlace, Keyed;
  }

  /** From a balanced store, a step leads to a balanced store exactly when it is clean. */
  lemma StepBalancesIffClean(s: Store, e: Event)
    requires Shape(s) && Balanced(s) && Enabled(s, e)
    ensures Shape(Apply(s, e)) && (Balanced(Apply(s, e)) <==> Clean(s, e))
  {
    hide Effect, Apply, Balance, Clean, Enabled, ACsInPlace, VolumesInPlace, Keyed;
    StepKeepsShape(s, e);
    CleanIffNoEffect(s, e);
    var t := Apply(s, e);
    forall l | Live(t, l)
      ensures exists a :: ACAt(t, l, a)
      ensures Balance(t, l) == t.lvgs[l].size + Effect(s, e, l)
    {
      StepBalance(s, e, l);
    }
  }
}
