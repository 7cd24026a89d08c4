// Lookups over the API objects (pkg/base/k8s/cr_helper.go). Lists come in an arbitrary order, and names
// of locations are compared exactly.

module CRHelper {
  import opened Types
  import opened Stores

  method ReadList<T>(m: map<string, T>) returns (l: seq<T>)
    ensures Lists(l, m)
  {
    l := [];
    var keys: seq<string> := [];
    var todo := m.Keys;
    while todo != {}
      invariant todo <= m.Keys && |keys| == |l| && |l| + |todo| == |m| && Distinct(keys)
      invariant forall k :: k in keys <==> k in m && k !in todo
      invariant forall i :: 0 <= i < |l| ==> l[i] == m[keys[i]]
      decreases todo
    {
      var k :| k in todo;
      keys, l, todo := keys + [k], l + [m[k]], todo - {k};
    }
    assert ListedBy(l, m, keys);
  }

  lemma ListedElement<T>(l: seq<T>, m: map<string, T>, i: nat) returns (k: string)
    requires Lists(l, m) && i < |l|
    ensures k in m && m[k] == l[i]
  {
    var keys :| ListedBy(l, m, keys);
    k := keys[i];
  }

  lemma ListedAll<T>(l: seq<T>, m: map<string, T>)
    requires Lists(l, m)
    ensures forall k :: k in m ==> m[k] in l
  {
    var keys :| ListedBy(l, m, keys);
    forall k | k in m ensures m[k] in l { var i :| 0 <= i < |keys| && keys[i] == k; assert l[i] == m[k]; }
  }

  /** cr_helper.go:85-106. */
  method GetACByLocation(acs: map<string, AC>, location: string) returns (found: Option<AC>)
    requires forall a :: a in acs ==> acs[a].name == a
    ensures found.Some? ==> found.value.name in acs && acs[found.value.name] == found.value && found.value.location == location
    ensures found.None? ==> forall a :: a in acs ==> acs[a].location != location
  {
    var list := ReadList(acs);
    for i := 0 to |list|
      invariant forall j :: 0 <= j < i ==> list[j].location != location
    {
      if list[i].location == location {
        ghost var k := ListedElement(list, acs, i);
        return Some(list[i]);
      }
    }
    ListedAll(list, acs);
    return None;
  }

  /** The LVG made of this drive. */
  predicate MadeOf(lvg: LVG, drive: string) {
    lvg.locations != [] && lvg.locations[0] == drive
  }

  /** The place whose volumes count as lying on the drive. */
  ghost predicate Place(lvgs: map<string, LVG>, drive: string, at: string) {
    (at in lvgs && MadeOf(lvgs[at], drive)) || (at == drive && forall l :: l in lvgs ==> !MadeOf(lvgs[l], drive))
  }

  ghost predicate OneLVGEach(lvgs: map<string, LVG>) {
    && (forall l :: l in lvgs ==> lvgs[l].name == l)
    && forall l, m, d :: l in lvgs && m in lvgs && MadeOf(lvgs[l], d) && MadeOf(lvgs[m], d) ==> l == m
  }

  /** Where the capacity of a drive is: at the LVG made of it, else at the drive. */
  ghost function PlaceOf(lvgs: map<string, LVG>, drive: string): string {
    if l :| l in lvgs && MadeOf(lvgs[l], drive) then l else drive
  }

  lemma PlaceIs(lvgs: map<string, LVG>, drive: string, at: string)
    requires OneLVGEach(lvgs)
    requires Place(lvgs, drive, at)
    ensures at == PlaceOf(lvgs, drive)
  {
  }

  /** cr_helper.go:183-199. */
  method GetLVGByDrive(lvgs: map<string, LVG>, drive: string) returns (found: Option<LVG>)
    requires forall l :: l in lvgs ==> lvgs[l].name == l
    ensures found.Some? ==> found.value.name in lvgs && lvgs[found.value.name] == found.value && MadeOf(found.value, drive)
    ensures found.None? ==> forall l :: l in lvgs ==> !MadeOf(lvgs[l], drive)
    ensures found.Some? ==> found.value.locations != [] && found.value.locations[0] == drive
    ensures found.None? ==> forall l :: l in lvgs && lvgs[l].locations != [] ==> lvgs[l].locations[0] != drive
  {
    var list := ReadList(lvgs);
    for i := 0 to |list|
      invariant forall j :: 0 <= j < i ==> !MadeOf(list[j], drive)
    {
      if |list[i].locations| > 0 && list[i].locations[0] == drive {
        ghost var k := ListedElement(list, lvgs, i);
        return Some(list[i]);
      }
    }
    ListedAll(list, lvgs);
    return None;
  }

  /** The volumes of list at the location, up to the first of location type DRIVE. */
  function VolumesAt(list: seq<Volume>, location: string): seq<Volume> {
    if list == [] then []
    else if list[0].location != location then VolumesAt(list[1..], location)
    else if !list[0].onLVM then [list[0]]
    else [list[0]] + VolumesAt(list[1..], location)
  }

  lemma {:induction false} VolumesAtAre(list: seq<Volume>, location: string)
    ensures forall v :: v in VolumesAt(list, location) ==> v in list && v.location == location
    ensures forall k :: 0 <= k < |VolumesAt(list, location)| - 1 ==> VolumesAt(list, location)[k].onLVM
    ensures VolumesAt(list, location) == [] <==> forall v :: v in list ==> v.location != location
    ensures (forall v :: v in list && v.location == location ==> v.onLVM) ==>
              forall v :: v in list && v.location == location ==> v in VolumesAt(list, location)
  {
    if list != [] {
      VolumesAtAre(list[1..], location);
      assert list == [list[0]] + list[1..];
    }
  }

  method CollectVolumes(list: seq<Volume>, location: string) returns (found: seq<Volume>)
    ensures found == VolumesAt(list, location)
  {
    found := [];
    for i := 0 to |list|
      invariant VolumesAt(list, location) == found + VolumesAt(list[i..], location)
    {
      assert list[i..][0] == list[i] && list[i..][1..] == list[i + 1..];
      if list[i].location == location {
        found := found + [list[i]];
        if !list[i].onLVM { return; }
      }
    }
  }

  /** cr_helper.go:142-178: the volumes at the drive or, once it carries an LVG, at the LVG. */
  method GetVolumesByLocation(volumes: map<string, Volume>, lvgs: map<string, LVG>, drive: string) returns (found: seq<Volume>)
    requires OneLVGEach(lvgs)
    ensures exists list :: Lists(list, volumes) && found == VolumesAt(list, PlaceOf(lvgs, drive))
    ensures found == [] <==> forall i :: i in volumes ==> volumes[i].location != PlaceOf(lvgs, drive)
  {
    var volList := ReadList(volumes);
    var location := drive;
    var lvg := GetLVGByDrive(lvgs, drive);
    if lvg.Some? { location := lvg.value.name; }
    PlaceIs(lvgs, drive, location);
    found := CollectVolumes(volList, location);
    VolumesAtAre(volList, location);
    hide VolumesAt;
    ListedExactly(volList, volumes);
  }

  lemma ListedExactly<T>(l: seq<T>, m: map<string, T>)
    requires Lists(l, m)
    ensures forall k :: k in m ==> m[k] in l
    ensures forall x :: x in l ==> exists k :: k in m && m[k] == x
  {
    ListedAll(l, m);
    forall x | x in l ensures exists k :: k in m && m[k] == x {
      var i :| 0 <= i < |l| && l[i] == x;
      var k := ListedElement(l, m, i);
    }
  }
}
