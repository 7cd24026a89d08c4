// pkg/crcontrollers/storagegroup/storagegroupcontroller.go: selecting drives for a group up to a quota
// per node, and keeping the labels of a drive and of its AC in step.

module StorageGroups {
  import opened Types
  import opened Stores
  import opened CRHelper

  /** `gone` says that the drive is REMOVED and OFFLINE, `group` is its storage-group label. */
  datatype Drive = Drive(name: string, nodeId: string, isClean: bool, gone: bool, group: Option<string>)

  datatype Phase = NoPhase | Syncing | Synced | Leaving | Invalid

  /** `matched` are the drives that agree with the group's match fields, `number` is NumberDrivesPerNode. */
  datatype Group = Group(name: string, number: int, matched: set<string>, phase: Phase)

  ghost predicate DistinctLocations(acs: map<string, AC>) {
    && (forall a :: a in acs ==> acs[a].name == a)
    && forall a, b :: a in acs && b in acs && a != b ==> acs[a].location != acs[b].location
  }

  // ---- who gets a label ----

  predicate Member(d: Drive, sg: Group) {
    !d.gone && d.group == Some(sg.name)
  }

  /** The drive is clean and its own AC still offers space. */
  ghost predicate Labelable(acs: map<string, AC>, d: Drive) {
    d.isClean && exists a :: a in acs && acs[a].location == d.name && acs[a].size != 0
  }

  ghost predicate Open(acs: map<string, AC>, d: Drive, sg: Group) {
    !d.gone && d.group.None? && d.name in sg.matched && Labelable(acs, d)
  }

  function Members(list: seq<Drive>, sg: Group, n: string): nat {
    if list == [] then 0
    else
      var last := list[|list| - 1];
      Members(list[..|list| - 1], sg, n) + (if Member(last, sg) && last.nodeId == n then 1 else 0)
  }

  ghost function Openings(acs: map<string, AC>, list: seq<Drive>, sg: Group, n: string): nat {
    if list == [] then 0
    else
      var last := list[|list| - 1];
      Openings(acs, list[..|list| - 1], sg, n) + (if Open(acs, last, sg) && last.nodeId == n then 1 else 0)
  }

  /** Drive i gets the label: it is free for it and, under a quota, its node has room after all the
      members of the list and the free drives before it. */
  ghost predicate Chosen(acs: map<string, AC>, list: seq<Drive>, sg: Group, i: nat)
    requires i < |list|
  {
    Open(acs, list[i], sg)
    && (sg.number == 0 || Members(list, sg, list[i].nodeId) + Openings(acs, list[..i], sg, list[i].nodeId) < sg.number)
  }

  ghost function Picked(acs: map<string, AC>, list: seq<Drive>, sg: Group, k: nat): (s: set<string>)
    requires k <= |list|
  {
    set i | 0 <= i < k && Chosen(acs, list, sg, i) :: list[i].name
  }

  /** How many of the first k drives are chosen on node n. */
  ghost function Picks(acs: map<string, AC>, list: seq<Drive>, sg: Group, n: string, k: nat): nat
    requires k <= |list|
  {
    if k == 0 then 0
    else Picks(acs, list, sg, n, k - 1) + (if Chosen(acs, list, sg, k - 1) && list[k - 1].nodeId == n then 1 else 0)
  }

  function Min(a: int, b: int): int {
    if a < b then a else b
  }

  function Max(a: int, b: int): int {
    if a < b then b else a
  }

  lemma {:induction false} PicksAre(acs: map<string, AC>, list: seq<Drive>, sg: Group, n: string, k: nat)
    requires k <= |list|
    ensures Picks(acs, list, sg, n, k) ==
              if sg.number == 0 then Openings(acs, list[..k], sg, n)
              else Min(Openings(acs, list[..k], sg, n), Max(0, sg.number - Members(list, sg, n)))
  {
    if k > 0 {
      PicksAre(acs, list, sg, n, k - 1);
      assert list[..k][..k - 1] == list[..k - 1];
    }
  }

  /** The list after the sync. */
  ghost function Relabelled(acs: map<string, AC>, list: seq<Drive>, sg: Group): (r: seq<Drive>)
    ensures |r| == |list|
    ensures forall i :: 0 <= i < |list| ==> r[i] == if Chosen(acs, list, sg, i) then list[i].(group := Some(sg.name)) else list[i]
  {
    seq(|list|, i requires 0 <= i < |list| => if Chosen(acs, list, sg, i) then list[i].(group := Some(sg.name)) else list[i])
  }

  lemma {:induction false} MembersAfter(acs: map<string, AC>, list: seq<Drive>, sg: Group, n: string, k: nat)
    requires k <= |list|
    ensures Members(Relabelled(acs, list, sg)[..k], sg, n) == Members(list[..k], sg, n) + Picks(acs, list, sg, n, k)
  {
    if k > 0 {
      MembersAfter(acs, list, sg, n, k - 1);
      var r := Relabelled(acs, list, sg);
      assert list[..k][..k - 1] == list[..k - 1] && r[..k][..k - 1] == r[..k - 1];
    }
  }

  /** The quota: afterwards each node has max(before, min(N, before + free)) drives of the group,
      all its free drives when there is no quota. */
  lemma QuotaIsMet(acs: map<string, AC>, list: seq<Drive>, sg: Group, n: string)
    ensures var before, free := Members(list, sg, n), Openings(acs, list, sg, n);
            Members(Relabelled(acs, list, sg), sg, n) ==
              if sg.number == 0 then before + free else Max(before, Min(sg.number, before + free))
  {
    hide Members, Openings, Picks, Relabelled, Chosen;
    var r := Relabelled(acs, list, sg);
    assert list[..|list|] == list && r[..|list|] == r;
    MembersAfter(acs, list, sg, n, |list|);
    PicksAre(acs, list, sg, n, |list|);
  }

  predicate BelongsTo(d: Drive, sg: Group, n: string) {
    !d.gone && d.group == Some(sg.name) && d.nodeId == n
  }

  /** A drive that is not gone and has no group, that the group selects, clean and with an AC of its own that offers space. */
  ghost predicate MayJoin(acs: map<string, AC>, d: Drive, sg: Group, n: string) {
    && !d.gone && d.group.None? && d.name in sg.matched && d.isClean && d.nodeId == n
    && exists a :: a in acs && acs[a].location == d.name && acs[a].size != 0
  }

  /** Which of the first k drives belong to the group on node n. */
  ghost function MembersOn(list: seq<Drive>, sg: Group, n: string, k: nat): set<int>
    requires k <= |list|
  {
    set i | 0 <= i < k && BelongsTo(list[i], sg, n)
  }

  /** Which of them could. */
  ghost function CouldJoin(acs: map<string, AC>, list: seq<Drive>, sg: Group, n: string, k: nat): set<int>
    requires k <= |list|
  {
    set i | 0 <= i < k && MayJoin(acs, list[i], sg, n)
  }

  lemma NextMember(list: seq<Drive>, sg: Group, n: string, k: nat)
    requires k < |list|
    ensures |MembersOn(list, sg, n, k + 1)| == |MembersOn(list, sg, n, k)| + (if BelongsTo(list[k], sg, n) then 1 else 0)
  {
    hide BelongsTo;
    assert MembersOn(list, sg, n, k + 1) == MembersOn(list, sg, n, k) + (if BelongsTo(list[k], sg, n) then {k} else {});
  }

  lemma NextOpening(acs: map<string, AC>, list: seq<Drive>, sg: Group, n: string, k: nat)
    requires k < |list|
    ensures |CouldJoin(acs, list, sg, n, k + 1)| == |CouldJoin(acs, list, sg, n, k)| + (if MayJoin(acs, list[k], sg, n) then 1 else 0)
  {
    hide MayJoin;
    assert CouldJoin(acs, list, sg, n, k + 1) == CouldJoin(acs, list, sg, n, k) + (if MayJoin(acs, list[k], sg, n) then {k} else {});
  }

  lemma {:induction false} CountsAre(acs: map<string, AC>, list: seq<Drive>, sg: Group, n: string, k: nat)
    requires k <= |list|
    ensures Members(list[..k], sg, n) == |MembersOn(list, sg, n, k)|
    ensures Openings(acs, list[..k], sg, n) == |CouldJoin(acs, list, sg, n, k)|
  {
    if k > 0 {
      CountsAre(acs, list, sg, n, k - 1);
      NextMember(list, sg, n, k - 1);
      NextOpening(acs, list, sg, n, k - 1);
      assert list[..k][..k - 1] == list[..k - 1];
    }
    hide MembersOn, CouldJoin;
  }

  /** The quota in terms of the drives themselves, and which drives are labelled: only ones that could join, and without a
      quota all of them. */
  lemma QuotaOfDrives(acs: map<string, AC>, list: seq<Drive>, sg: Group, n: string)
    ensures var r := Relabelled(acs, list, sg);
            var before, free := MembersOn(list, sg, n, |list|), CouldJoin(acs, list, sg, n, |list|);
            |MembersOn(r, sg, n, |list|)| ==
              if sg.number == 0 then |before| + |free| else Max(|before|, Min(sg.number, |before| + |free|))
    ensures forall i :: 0 <= i < |list| && Relabelled(acs, list, sg)[i] != list[i] ==>
              i in CouldJoin(acs, list, sg, list[i].nodeId, |list|) && Relabelled(acs, list, sg)[i] == list[i].(group := Some(sg.name))
    ensures sg.number == 0 ==>
              forall i :: i in CouldJoin(acs, list, sg, n, |list|) ==> Relabelled(acs, list, sg)[i] == list[i].(group := Some(sg.name))
  {
    var r := Relabelled(acs, list, sg);
    assert list[..|list|] == list && r[..|list|] == r;
    CountsAre(acs, list, sg, n, |list|);
    CountsAre(acs, r, sg, n, |list|);
    QuotaIsMet(acs, list, sg, n);
    hide Members, Openings;
  }

  // ---- labels in the store ----

  function LabelDrives(drives: map<string, Drive>, picked: set<string>, sg: string): (r: map<string, Drive>) {
    map d | d in drives :: if d in picked then drives[d].(group := Some(sg)) else drives[d]
  }

  function LabelACs(acs: map<string, AC>, picked: set<string>, sg: string): (r: map<string, AC>) {
    map a | a in acs :: if acs[a].location in picked then acs[a].(group := Some(sg)) else acs[a]
  }

  lemma LabelableStays(acs: map<string, AC>, picked: set<string>, sg: string, d: Drive)
    ensures Labelable(LabelACs(acs, picked, sg), d) <==> Labelable(acs, d)
  {
    var r := LabelACs(acs, picked, sg);
    forall a | a in acs ensures r[a].location == acs[a].location && r[a].size == acs[a].size {}
    if Labelable(acs, d) {
      var a :| a in acs && acs[a].location == d.name && acs[a].size != 0;
      assert a in r;
    }
    if Labelable(r, d) {
      var a :| a in r && r[a].location == d.name && r[a].size != 0;
      assert a in acs;
    }
  }

  lemma NoCapacityStays(acs: map<string, AC>, lvgs: map<string, LVG>, picked: set<string>, sg: string, d: Drive)
    ensures NoCapacityYet(LabelACs(acs, picked, sg), lvgs, d) <==> NoCapacityYet(acs, lvgs, d)
  {
    var r := LabelACs(acs, picked, sg);
    forall a | a in acs ensures a in r && r[a].location == acs[a].location {}
  }

  lemma LabelOneMore(drives: map<string, Drive>, acs: map<string, AC>, picked: set<string>, sg: string, d: string, a: string)
    requires DistinctLocations(acs) && d in drives && a in acs && acs[a].location == d
    ensures LabelDrives(drives, picked + {d}, sg) == LabelDrives(drives, picked, sg)[d := drives[d].(group := Some(sg))]
    ensures LabelACs(acs, picked + {d}, sg) == LabelACs(acs, picked, sg)[a := acs[a].(group := Some(sg))]
  {
  }

  function Count(m: map<string, int>, n: string): int {
    if n in m then m[n] else 0
  }

  ghost predicate DistinctNames(list: seq<Drive>) {
    forall i, j :: 0 <= i < j < |list| ==> list[i].name != list[j].name
  }

  lemma PickedNext(acs: map<string, AC>, list: seq<Drive>, sg: Group, k: nat)
    requires k < |list| && DistinctNames(list)
    ensures Picked(acs, list, sg, k + 1) ==
              if Chosen(acs, list, sg, k) then Picked(acs, list, sg, k) + {list[k].name} else Picked(acs, list, sg, k)
    ensures list[k].name !in Picked(acs, list, sg, k)
  {
    hide Chosen;
  }

  lemma {:induction false} NoneBetween(acs: map<string, AC>, list: seq<Drive>, sg: Group, a: nat, b: nat)
    requires a <= b <= |list| && forall j :: a <= j < b ==> !Chosen(acs, list, sg, j)
    ensures Picked(acs, list, sg, a) == Picked(acs, list, sg, b)
    ensures forall n :: Picks(acs, list, sg, n, a) == Picks(acs, list, sg, n, b)
  {
    hide Chosen;
    if a < b { NoneBetween(acs, list, sg, a, b - 1); }
  }

  lemma {:induction false} MembersGrow(list: seq<Drive>, sg: Group, n: string, k: nat)
    requires k <= |list|
    ensures Members(list[..k], sg, n) <= Members(list, sg, n)
    decreases |list| - k
  {
    if k == |list| {
      assert list[..k] == list;
    } else {
      MembersGrow(list, sg, n, k + 1);
      assert list[..k + 1][..k] == list[..k];
    }
  }

  predicate Eligible(d: Drive, sg: Group) {
    !d.gone && d.group.None? && d.name in sg.matched
  }

  lemma ChosenIsEligible(acs: map<string, AC>, list: seq<Drive>, sg: Group, i: nat)
    requires i < |list|
    ensures Chosen(acs, list, sg, i) ==> Eligible(list[i], sg)
    ensures Chosen(acs, list, sg, i) && sg.number != 0 ==> Members(list[..i], sg, list[i].nodeId) < sg.number
    ensures sg.number == 0 ==> (Chosen(acs, list, sg, i) <==> Eligible(list[i], sg) && Labelable(acs, list[i]))
  {
    MembersGrow(list, sg, list[i].nodeId, i);
    hide Members, Openings, Labelable;
  }

  lemma MembersNext(list: seq<Drive>, sg: Group, i: nat, n: string)
    requires i < |list|
    ensures Members(list[..i + 1], sg, n) == Members(list[..i], sg, n) + (if Member(list[i], sg) && list[i].nodeId == n then 1 else 0)
  {
    assert list[..i + 1][..i] == list[..i];
  }

  lemma CollectNext(acs: map<string, AC>, list: seq<Drive>, sg: Group, i: nat, candidates: seq<Drive>, pos: seq<nat>)
    requires i < |list| && Collected(acs, list, sg, i, candidates, pos)
    ensures Eligible(list[i], sg) ==> Collected(acs, list, sg, i + 1, candidates + [list[i]], pos + [i])
    ensures !Tried(acs, list, sg, i) ==> Collected(acs, list, sg, i + 1, candidates, pos)
  {
    hide Tried, Eligible;
    assert forall j :: j in pos ==> j in pos + [i];
    assert i in pos + [i];
  }

  /** The second loop, or without a quota the first, comes to drive i while its node still has room. */
  ghost predicate Tried(acs: map<string, AC>, list: seq<Drive>, sg: Group, i: nat)
    requires i < |list|
  {
    Eligible(list[i], sg)
    && (sg.number == 0 || Members(list, sg, list[i].nodeId) + Picks(acs, list, sg, list[i].nodeId, i) < sg.number)
  }

  /** A clean drive whose capacity is not known yet: it has neither an AC nor an LVG. */
  ghost predicate NoCapacityYet(acs: map<string, AC>, lvgs: map<string, LVG>, d: Drive) {
    d.isClean && (forall a :: a in acs ==> acs[a].location != d.name) && forall l :: l in lvgs ==> !MadeOf(lvgs[l], d.name)
  }

  /** Labelling fails for one of the first k drives. */
  ghost predicate Fails(acs: map<string, AC>, lvgs: map<string, LVG>, list: seq<Drive>, sg: Group, k: nat)
    requires k <= |list|
  {
    exists i :: 0 <= i < k && Tried(acs, list, sg, i) && NoCapacityYet(acs, lvgs, list[i])
  }

  lemma FailsNext(acs: map<string, AC>, lvgs: map<string, LVG>, list: seq<Drive>, sg: Group, k: nat)
    requires k < |list|
    ensures Fails(acs, lvgs, list, sg, k + 1) <==>
              Fails(acs, lvgs, list, sg, k) || (Tried(acs, list, sg, k) && NoCapacityYet(acs, lvgs, list[k]))
  {
    hide Tried, NoCapacityYet;
  }

  lemma FailsNot(acs: map<string, AC>, lvgs: map<string, LVG>, list: seq<Drive>, sg: Group, a: nat, b: nat)
    requires a <= b <= |list| && forall j :: a <= j < b ==> !Tried(acs, list, sg, j)
    ensures Fails(acs, lvgs, list, sg, a) <==> Fails(acs, lvgs, list, sg, b)
  {
    hide Tried, NoCapacityYet;
  }

  lemma ChosenIsTried(acs: map<string, AC>, list: seq<Drive>, sg: Group, i: nat)
    requires i < |list|
    ensures Chosen(acs, list, sg, i) ==> Tried(acs, list, sg, i)
    ensures Tried(acs, list, sg, i) && sg.number != 0 ==> Members(list[..i], sg, list[i].nodeId) < sg.number
  {
    PicksAre(acs, list, sg, list[i].nodeId, i);
    MembersGrow(list, sg, list[i].nodeId, i);
    hide Members, Openings, Picks, Labelable;
  }

  /** The candidates of the first loop: free drives in list order, every one that may be labelled among them. */
  ghost predicate Collected(acs: map<string, AC>, list: seq<Drive>, sg: Group, i: nat, candidates: seq<Drive>, pos: seq<nat>)
    requires i <= |list|
  {
    && |pos| == |candidates|
    && (forall k :: 0 <= k < |pos| ==> pos[k] < i && candidates[k] == list[pos[k]] && Eligible(candidates[k], sg))
    && (forall k, l :: 0 <= k < l < |pos| ==> pos[k] < pos[l])
    && (forall j :: 0 <= j < i && Tried(acs, list, sg, j) ==> j in pos)
  }

  /** A candidate finds its node below the quota exactly when it is one of the chosen, if it can be labelled at all. */
  lemma RoomMeansChosen(acs: map<string, AC>, list: seq<Drive>, sg: Group, p: nat, count: int)
    requires p < |list| && sg.number > 0 && count == Members(list, sg, list[p].nodeId) + Picks(acs, list, sg, list[p].nodeId, p)
    requires Eligible(list[p], sg)
    ensures Chosen(acs, list, sg, p) <==> count < sg.number && Labelable(acs, list[p])
    ensures Tried(acs, list, sg, p) <==> count < sg.number
  {
    hide Picks, Members, Openings, Labelable;
    PicksAre(acs, list, sg, list[p].nodeId, p);
  }

  lemma StartCounting(acs: map<string, AC>, list: seq<Drive>, sg: Group)
    ensures Picked(acs, list, sg, 0) == {} && Collected(acs, list, sg, 0, [], [])
    ensures forall lvgs :: !Fails(acs, lvgs, list, sg, 0)
    ensures forall n :: Members(list[..0], sg, n) == 0 && Picks(acs, list, sg, n, 0) == 0
  {
  }

  lemma PicksNext(acs: map<string, AC>, list: seq<Drive>, sg: Group, n: string, k: nat)
    requires k < |list|
    ensures Picks(acs, list, sg, n, k + 1) == Picks(acs, list, sg, n, k) + (if Chosen(acs, list, sg, k) && list[k].nodeId == n then 1 else 0)
  {
  }

  lemma ListsDrives(list: seq<Drive>, drives: map<string, Drive>)
    requires Lists(list, drives) && forall d :: d in drives ==> drives[d].name == d
    ensures DistinctNames(list) && forall i :: 0 <= i < |list| ==> list[i].name in drives && drives[list[i].name] == list[i]
  {
    var keys :| ListedBy(list, drives, keys);
    assert forall i :: 0 <= i < |list| ==> list[i].name == keys[i];
  }

  lemma NothingChosen(acs: map<string, AC>, lvgs: map<string, LVG>, list: seq<Drive>, sg: Group, candidates: seq<Drive>, pos: seq<nat>)
    requires Collected(acs, list, sg, |list|, candidates, pos) && candidates == []
    ensures Picked(acs, list, sg, |list|) == {} && !Fails(acs, lvgs, list, sg, |list|)
  {
    forall i | 0 <= i < |list| ensures !Chosen(acs, list, sg, i) { ChosenIsTried(acs, list, sg, i); }
    hide Chosen, Tried;
  }

  function Unlabel(acs: map<string, AC>, places: set<string>): map<string, AC> {
    map a | a in acs :: if acs[a].location in places then acs[a].(group := None) else acs[a]
  }

  function Unlabelled(drives: map<string, Drive>, cleared: set<string>): map<string, Drive> {
    map d | d in drives :: if d in cleared then drives[d].(group := None) else drives[d]
  }

  lemma UnlabelOne(acs: map<string, AC>, a: string)
    requires DistinctLocations(acs) && a in acs
    ensures Unlabel(acs, {acs[a].location}) == acs[a := acs[a].(group := None)]
  {
  }

  ghost function Places(lvgs: map<string, LVG>, drives: set<string>): set<string> {
    set d | d in drives :: PlaceOf(lvgs, d)
  }

  lemma UnlabelMore(drives: map<string, Drive>, acs: map<string, AC>, lvgs: map<string, LVG>, cleared: set<string>, d: string)
    requires d in drives
    ensures Unlabelled(drives, cleared + {d}) == Unlabelled(drives, cleared)[d := drives[d].(group := None)]
    ensures Unlabel(Unlabel(acs, Places(lvgs, cleared)), {PlaceOf(lvgs, d)}) == Unlabel(acs, Places(lvgs, cleared + {d}))
  {
    assert Places(lvgs, cleared + {d}) == Places(lvgs, cleared) + {PlaceOf(lvgs, d)};
  }

  /** The group's drives that hold no volume. */
  ghost function Clearable(drives: map<string, Drive>, sg: Group, volumes: map<string, Volume>, lvgs: map<string, LVG>): set<string> {
    set d | d in drives && drives[d].group == Some(sg.name) && !HasVolumes(volumes, lvgs, d)
  }

  lemma ClearableMeans(drives: map<string, Drive>, acs: map<string, AC>, sg: Group, volumes: map<string, Volume>, lvgs: map<string, LVG>)
    ensures var cleared, after := Clearable(drives, sg, volumes, lvgs), Unlabel(acs, Places(lvgs, Clearable(drives, sg, volumes, lvgs)));
            && after.Keys == acs.Keys
            && forall a :: a in acs ==>
                 after[a] == if exists d :: d in cleared && PlaceOf(lvgs, d) == acs[a].location then acs[a].(group := None) else acs[a]
    ensures var cleared := Clearable(drives, sg, volumes, lvgs);
            && (forall d :: d in cleared <==> d in drives && drives[d].group == Some(sg.name)
                                              && forall i :: i in volumes ==> volumes[i].location != PlaceOf(lvgs, d))
            && Unlabelled(drives, cleared).Keys == drives.Keys
            && forall d :: d in drives ==>
                 Unlabelled(drives, cleared)[d] == if d in cleared then drives[d].(group := None) else drives[d]
  {
  }

  ghost function Cleared(list: seq<Drive>, sg: Group, k: nat, volumes: map<string, Volume>, lvgs: map<string, LVG>): set<string>
    requires k <= |list|
  {
    set j | 0 <= j < k && list[j].group == Some(sg.name) && !HasVolumes(volumes, lvgs, list[j].name) :: list[j].name
  }

  ghost predicate Blocks(d: Drive, sg: Group, volumes: map<string, Volume>, lvgs: map<string, LVG>) {
    d.group == Some(sg.name) && HasVolumes(volumes, lvgs, d.name)
  }

  lemma NothingCleared(drives: map<string, Drive>, acs: map<string, AC>, lvgs: map<string, LVG>, list: seq<Drive>, sg: Group,
                       volumes: map<string, Volume>)
    ensures Unlabelled(drives, {}) == drives && Unlabel(acs, Places(lvgs, {})) == acs
    ensures Cleared(list, sg, 0, volumes, lvgs) == {}
  {
  }

  lemma ClearedNext(drives: map<string, Drive>, list: seq<Drive>, sg: Group, i: nat, volumes: map<string, Volume>, lvgs: map<string, LVG>)
    requires i < |list| && DistinctNames(list)
    requires forall j :: 0 <= j < |list| ==> list[j].name in drives && drives[list[j].name] == list[j]
    ensures Cleared(list, sg, i + 1, volumes, lvgs) ==
              Cleared(list, sg, i, volumes, lvgs) + (if list[i].group == Some(sg.name) && !HasVolumes(volumes, lvgs, list[i].name) then {list[i].name} else {})
    ensures Cleared(list, sg, i, volumes, lvgs) + {} == Cleared(list, sg, i, volumes, lvgs)
    ensures list[i].name in Unlabelled(drives, Cleared(list, sg, i, volumes, lvgs))
    ensures Unlabelled(drives, Cleared(list, sg, i, volumes, lvgs))[list[i].name] == list[i]
  {
    hide HasVolumes;
  }

  lemma DriveIsListed(list: seq<Drive>, drives: map<string, Drive>, d: string) returns (j: nat)
    requires Lists(list, drives) && d in drives
    ensures j < |list| && list[j] == drives[d]
  {
    ListedAll(list, drives);
    j :| 0 <= j < |list| && list[j] == drives[d];
  }

  lemma AllCleared(drives: map<string, Drive>, list: seq<Drive>, sg: Group, volumes: map<string, Volume>, lvgs: map<string, LVG>)
    requires Lists(list, drives) && forall d :: d in drives ==> drives[d].name == d
    requires forall j :: 0 <= j < |list| ==> list[j].name in drives && drives[list[j].name] == list[j]
    ensures Cleared(list, sg, |list|, volumes, lvgs) == Clearable(drives, sg, volumes, lvgs)
    ensures var after := Unlabelled(drives, Clearable(drives, sg, volumes, lvgs));
            (forall d :: d in after ==> after[d].group != Some(sg.name)) <==>
            !(exists j :: 0 <= j < |list| && Blocks(list[j], sg, volumes, lvgs))
  {
    hide HasVolumes, Lists;
    forall d | d in Clearable(drives, sg, volumes, lvgs) ensures d in Cleared(list, sg, |list|, volumes, lvgs) {
      var j := DriveIsListed(list, drives, d);
    }
    NoneLeft(drives, list, sg, volumes, lvgs);
    hide Cleared, Clearable, Unlabelled, Blocks;
  }

  lemma NoneLeft(drives: map<string, Drive>, list: seq<Drive>, sg: Group, volumes: map<string, Volume>, lvgs: map<string, LVG>)
    requires Lists(list, drives) && forall d :: d in drives ==> drives[d].name == d
    requires forall j :: 0 <= j < |list| ==> list[j].name in drives && drives[list[j].name] == list[j]
    ensures var after := Unlabelled(drives, Clearable(drives, sg, volumes, lvgs));
            (forall d :: d in after ==> after[d].group != Some(sg.name)) <==>
            !(exists j :: 0 <= j < |list| && Blocks(list[j], sg, volumes, lvgs))
  {
    hide HasVolumes, Lists;
    var after := Unlabelled(drives, Clearable(drives, sg, volumes, lvgs));
    assert forall d :: d in drives ==> (after[d].group == Some(sg.name) <==> Blocks(drives[d], sg, volumes, lvgs));
    hide Clearable, Unlabelled, Blocks;
    if d :| d in after && after[d].group == Some(sg.name) {
      var j := DriveIsListed(list, drives, d);
    }
  }

  // ---- one drive and its AC ----

  /** The first i groups have been looked at: none takes the drive by itself, those it may fill wait to be synced. */
  ghost predicate Seen(list: seq<Group>, i: nat, before: map<string, Group>, after: map<string, Group>, drive: string) {
    && i <= |list| && Lists(list, before) && (forall g :: g in before ==> before[g].name == g)
    && Retriggered(before, after, drive)
    && forall j :: 0 <= j < i ==> !Auto(list[j], drive)
                                  && (MayFill(list[j], drive) ==> list[j].name in after && after[list[j].name].phase.Syncing?)
  }

  lemma NothingSeen(list: seq<Group>, groups: map<string, Group>, drive: string)
    requires Lists(list, groups) && forall g :: g in groups ==> groups[g].name == g
    ensures Seen(list, 0, groups, groups, drive)
  {
  }

  lemma SeenNext(list: seq<Group>, i: nat, before: map<string, Group>, after: map<string, Group>, drive: string)
    requires Seen(list, i, before, after, drive) && i < |list|
    ensures list[i].name in before && before[list[i].name] == list[i] && Retriggered(before, after, drive)
    ensures !Auto(list[i], drive) ==>
              Seen(list, i + 1, before,
                   if MayFill(list[i], drive) then after[list[i].name := list[i].(phase := Syncing)] else after, drive)
  {
    var k := ListedElement(list, before, i);
    hide Lists;
  }

  lemma AllSeen(list: seq<Group>, before: map<string, Group>, after: map<string, Group>, drive: string)
    requires Seen(list, |list|, before, after, drive)
    ensures NoAuto(before, drive) && Retriggered(before, after, drive)
    ensures forall g :: g in after && MayFill(before[g], drive) ==> after[g].phase.Syncing?
  {
    ListedAll(list, before);
    hide Lists;
    forall g | g in before
      ensures !Auto(before[g], drive) && (MayFill(before[g], drive) ==> after[g].phase.Syncing?)
    {
      var j :| 0 <= j < |list| && list[j] == before[g];
    }
  }

  /** The group labels drives on its own: no quota, and neither waiting nor leaving. */
  predicate Auto(g: Group, drive: string) {
    g.number == 0 && (g.phase.Synced? || g.phase.Syncing?) && drive in g.matched
  }

  ghost predicate NoAuto(groups: map<string, Group>, drive: string) {
    forall g :: g in groups ==> !Auto(groups[g], drive)
  }

  /** The drive may fill a gap in the group's quota, so the group is synced again. */
  predicate MayFill(g: Group, drive: string) {
    g.number != 0 && g.phase.Synced? && drive in g.matched
  }

  ghost predicate Retriggered(before: map<string, Group>, after: map<string, Group>, drive: string) {
    && before.Keys == after.Keys
    && forall g :: g in before ==> after[g] == before[g] || (MayFill(before[g], drive) && after[g] == before[g].(phase := Syncing))
  }

  lemma RetriggeredMeans(before: map<string, Group>, after: map<string, Group>, drive: string)
    requires Retriggered(before, after, drive)
    ensures before.Keys == after.Keys
    ensures forall g :: g in before && after[g] != before[g] ==>
              && before[g].number != 0 && before[g].phase.Synced? && drive in before[g].matched
              && after[g] == before[g].(phase := Syncing)
  {
  }

  /** A group that still selects the drive keeps its label on it. */
  predicate Keeps(groups: map<string, Group>, sg: string, drive: string) {
    sg in groups && (groups[sg].phase.Synced? || groups[sg].phase.Syncing?) && drive in groups[sg].matched
  }

  /** Drive and AC both carry label x afterwards, and nothing else changed. */
  ghost predicate Labelled(ds: map<string, Drive>, ds': map<string, Drive>, acs: map<string, AC>, acs': map<string, AC>,
                           drive: Drive, ac: AC, x: Option<string>) {
    ds' == ds[drive.name := drive.(group := x)] && acs' == acs[ac.name := ac.(group := x)]
  }

  ghost predicate HasVolumes(volumes: map<string, Volume>, lvgs: map<string, LVG>, drive: string) {
    exists i :: i in volumes && volumes[i].location == PlaceOf(lvgs, drive)
  }

  /** The label both carry after a sync, when they differed: the AC's label wins, a label may only be
      added to a clean unused drive, and only removed from one that nothing holds on to. */
  function SyncedLabel(acLabel: Option<string>, driveLabel: Option<string>, mayAdd: bool, mustKeep: bool): Option<string> {
    if acLabel.None? then (if mayAdd then driveLabel else None)
    else if driveLabel.None? && !mustKeep then None
    else acLabel
  }

  /** The outcome of one label sync. */
  ghost predicate SyncedTo(ds: map<string, Drive>, ds': map<string, Drive>, acs: map<string, AC>, acs': map<string, AC>,
                           groups: map<string, Group>, volumes: map<string, Volume>, lvgs: map<string, LVG>, drive: Drive, ac: AC) {
    var alone := PlaceOf(lvgs, drive.name) == drive.name;
    if LabelOf(ac.group) != LabelOf(drive.group) then
      Labelled(ds, ds', acs, acs', drive, ac,
               SyncedLabel(ac.group, drive.group, drive.isClean && alone && ac.size != 0,
                           HasVolumes(volumes, lvgs, drive.name) || Keeps(groups, LabelOf(ac.group), drive.name)))
    else if ac.group.None? && drive.group.None? && drive.isClean && alone && ac.size > 0 then
      exists x :: Labelled(ds, ds', acs, acs', drive, ac, x) && (x.None? <==> NoAuto(groups, drive.name))
    else ds' == ds && acs' == acs
  }

  class Controller {
    const client: Cluster
    var drives: map<string, Drive>
    var groups: map<string, Group>

    constructor (client: Cluster, drives: map<string, Drive>, groups: map<string, Group>)
      ensures this.client == client && this.drives == drives && this.groups == groups
    {
      this.client, this.drives, this.groups := client, drives, groups;
    }

    ghost predicate Valid()
      reads this, client
    {
      && DistinctLocations(client.acs)
      && OneLVGEach(client.lvgs)
      && (forall d :: d in drives ==> drives[d].name == d && d !in client.lvgs)
      && (forall g :: g in groups ==> groups[g].name == g)
    }

    /** storagegroupcontroller.go:650-690. */
    method AddDriveAndACStorageGroupLabel(drive: Drive, sgName: string) returns (labelled: bool, failed: bool)
      requires Valid() && drive.name in drives && drives[drive.name] == drive
      modifies this`drives, client`acs
      ensures Valid() && (labelled <==> Labelable(old(client.acs), drive))
      ensures drives == if labelled then old(drives)[drive.name := drive.(group := Some(sgName))] else old(drives)
      ensures !labelled ==> client.acs == old(client.acs)
      ensures labelled ==> client.acs == LabelACs(old(client.acs), {drive.name}, sgName)
      ensures (failed <==> NoCapacityYet(old(client.acs), client.lvgs, drive)) && !(labelled && failed)
      ensures failed <==> drive.isClean && (forall a :: a in old(client.acs) ==> old(client.acs)[a].location != drive.name)
                          && forall l :: l in client.lvgs && client.lvgs[l].locations != [] ==> client.lvgs[l].locations[0] != drive.name
      ensures labelled ==> drive.isClean && exists a :: a in old(client.acs) && old(client.acs)[a].location == drive.name && old(client.acs)[a].size != 0
    {
      if !drive.isClean { return false, false; }
      var found := GetACByLocation(client.acs, drive.name);
      if found.None? {
        var lvg := GetLVGByDrive(client.lvgs, drive.name);
        return false, lvg.None?;
      }
      var ac := found.value;
      if ac.size == 0 { return false, false; }
      drives := drives[drive.name := drive.(group := Some(sgName))];
      LabelOneMore(old(drives), client.acs, {}, sgName, drive.name, ac.name);
      client.acs := client.acs[ac.name := ac.(group := Some(sgName))];
      assert LabelACs(old(client.acs), {}, sgName) == old(client.acs);
      assert {} + {drive.name} == {drive.name};
      return true, false;
    }

    /** The drives in `picked` have been labelled since drives0 and acs0. */
    ghost predicate Done(drives0: map<string, Drive>, acs0: map<string, AC>, picked: set<string>, sg: string)
      reads this, client
    {
      drives == LabelDrives(drives0, picked, sg) && client.acs == LabelACs(acs0, picked, sg)
    }

    method LabelNext(drive: Drive, sgName: string, ghost drives0: map<string, Drive>, ghost acs0: map<string, AC>, ghost picked: set<string>)
      returns (labelled: bool, failed: bool)
      requires Valid() && drive.name in drives0 && drives0[drive.name] == drive && drive.name !in picked
      requires Done(drives0, acs0, picked, sgName)
      modifies this`drives, client`acs
      ensures Valid() && (labelled <==> Labelable(acs0, drive))
      ensures Done(drives0, acs0, if labelled then picked + {drive.name} else picked, sgName)
      ensures (failed <==> NoCapacityYet(acs0, client.lvgs, drive)) && !(labelled && failed)
    {
      LabelableStays(acs0, picked, sgName, drive);
      NoCapacityStays(acs0, client.lvgs, picked, sgName, drive);
      labelled, failed := AddDriveAndACStorageGroupLabel(drive, sgName);
      assert labelled ==> LabelACs(LabelACs(acs0, picked, sgName), {drive.name}, sgName) == LabelACs(acs0, picked + {drive.name}, sgName);
    }

    /** The first loop, storagegroupcontroller.go:467-502. */
    method FirstPass(sg: Group, list: seq<Drive>, ghost drives0: map<string, Drive>, ghost acs0: map<string, AC>)
      returns (drivesCount: map<string, int>, candidates: seq<Drive>, ghost pos: seq<nat>, failed: bool)
      requires Valid() && DistinctNames(list) && (forall i :: 0 <= i < |list| ==> list[i].name in drives0 && drives0[list[i].name] == list[i])
      requires Done(drives0, acs0, {}, sg.name)
      modifies this`drives, client`acs
      ensures Valid() && Done(drives0, acs0, if sg.number == 0 then Picked(acs0, list, sg, |list|) else {}, sg.name)
      ensures sg.number > 0 ==> forall n :: Count(drivesCount, n) == Members(list, sg, n)
      ensures sg.number != 0 ==> Collected(acs0, list, sg, |list|, candidates, pos) && !failed
      ensures sg.number == 0 ==> (failed <==> Fails(acs0, client.lvgs, list, sg, |list|))
      ensures sg.number <= 0 ==> candidates == []
    {
      hide Picked, Openings, Labelable, LabelDrives, LabelACs, Members, Chosen, DistinctLocations, Fails, NoCapacityYet;
      drivesCount, candidates, pos, failed := map[], [], [], false;
      StartCounting(acs0, list, sg);
      for i := 0 to |list|
        invariant Valid() && Done(drives0, acs0, if sg.number == 0 then Picked(acs0, list, sg, i) else {}, sg.name)
        invariant sg.number > 0 ==> forall n :: Count(drivesCount, n) == Members(list[..i], sg, n)
        invariant sg.number != 0 ==> Collected(acs0, list, sg, i, candidates, pos) && !failed
        invariant sg.number == 0 ==> (failed <==> Fails(acs0, client.lvgs, list, sg, i))
        invariant sg.number <= 0 ==> candidates == [] && drivesCount == map[]
      {
        var drive := list[i];
        PickedNext(acs0, list, sg, i);
        ChosenIsEligible(acs0, list, sg, i);
        ChosenIsTried(acs0, list, sg, i);
        FailsNext(acs0, client.lvgs, list, sg, i);
        if sg.number != 0 { CollectNext(acs0, list, sg, i, candidates, pos); }
        forall n { MembersNext(list, sg, i, n); }
        if drive.gone { continue; }
        if drive.group.Some? {
          if drive.group.value == sg.name && sg.number > 0 {
            drivesCount := drivesCount[drive.nodeId := Count(drivesCount, drive.nodeId) + 1];
          }
          continue;
        }
        if drive.name in sg.matched && (sg.number == 0 || Count(drivesCount, drive.nodeId) < sg.number) {
          if sg.number > 0 {
            candidates := candidates + [drive];
            pos := pos + [i];
            continue;
          }
          var labelled, err := LabelNext(drive, sg.name, drives0, acs0, Picked(acs0, list, sg, i));
          if !labelled && err { failed := true; }
        }
      }
      assert list[..|list|] == list;
    }

    /** The second loop, storagegroupcontroller.go:504-515. */
    method LabelCandidates(sg: Group, counted: map<string, int>, candidates: seq<Drive>, list: seq<Drive>,
                           ghost pos: seq<nat>, ghost drives0: map<string, Drive>, ghost acs0: map<string, AC>)
      returns (failed: bool)
      requires Valid() && DistinctNames(list) && (forall i :: 0 <= i < |list| ==> list[i].name in drives0 && drives0[list[i].name] == list[i])
      requires Done(drives0, acs0, {}, sg.name) && sg.number > 0
      requires Collected(acs0, list, sg, |list|, candidates, pos)
      requires forall n :: Count(counted, n) == Members(list, sg, n)
      modifies this`drives, client`acs
      ensures Valid() && Done(drives0, acs0, Picked(acs0, list, sg, |list|), sg.name)
      ensures failed <==> Fails(acs0, client.lvgs, list, sg, |list|)
    {
      hide Picked, Openings, Labelable, LabelDrives, LabelACs, Members, Chosen, DistinctLocations, Picks, Fails, NoCapacityYet, Tried;
      var drivesCount := counted;
      failed := false;
      StartCounting(acs0, list, sg);
      ghost var upto: nat := 0;
      for k := 0 to |candidates|
        invariant Valid() && upto <= |list| && Done(drives0, acs0, Picked(acs0, list, sg, upto), sg.name)
        invariant forall n :: Count(drivesCount, n) == Members(list, sg, n) + Picks(acs0, list, sg, n, upto)
        invariant if k == 0 then upto == 0 else upto == pos[k - 1] + 1
        invariant failed <==> Fails(acs0, client.lvgs, list, sg, upto)
      {
        var drive := candidates[k];
        ghost var p := pos[k];
        SkipTo(acs0, client.lvgs, list, sg, candidates, pos, k, upto);
        FailsNext(acs0, client.lvgs, list, sg, p);
        PickedNext(acs0, list, sg, p);
        RoomMeansChosen(acs0, list, sg, p, Count(drivesCount, drive.nodeId));
        forall n { PicksNext(acs0, list, sg, n, p); }
        upto := p + 1;
        if Count(drivesCount, drive.nodeId) < sg.number {
          var labelled, err := LabelNext(drive, sg.name, drives0, acs0, Picked(acs0, list, sg, p));
          if labelled {
            drivesCount := drivesCount[drive.nodeId := Count(drivesCount, drive.nodeId) + 1];
          } else if err {
            failed := true;
          }
        }
      }
      SkipTo(acs0, client.lvgs, list, sg, candidates, pos, |candidates|, upto);
    }

    /** storagegroupcontroller.go:449-531. The list is the order in which the drives were read. */
    method HandleStorageGroupCreationOrUpdate(sg: Group) returns (ok: bool, ghost list: seq<Drive>)
      requires Valid() && sg.name in groups && groups[sg.name] == sg
      modifies this, client`acs
      ensures Valid() && Lists(list, old(drives))
      ensures Done(old(drives), old(client.acs), Picked(old(client.acs), list, sg, |list|), sg.name)
      ensures groups == if ok then old(groups)[sg.name := sg.(phase := Synced)] else old(groups)
      ensures ok <==> !Fails(old(client.acs), client.lvgs, list, sg, |list|)
    {
      hide Picked, Chosen, Members, Labelable, Collected, DistinctLocations, DistinctNames, Lists, Count, OneLVGEach, Fails;
      var drivesList := ReadList(drives);
      list := drivesList;
      ListsDrives(list, drives);
      assert Done(drives, client.acs, {}, sg.name) by {
        assert LabelDrives(drives, {}, sg.name) == drives && LabelACs(client.acs, {}, sg.name) == client.acs;
      }
      var drivesCount, candidates, pos, failed := FirstPass(sg, drivesList, drives, client.acs);
      if |candidates| > 0 {
        failed := LabelCandidates(sg, drivesCount, candidates, drivesList, pos, old(drives), old(client.acs));
      } else if sg.number != 0 {
        NothingChosen(old(client.acs), client.lvgs, list, sg, candidates, pos);
      }
      if failed { return false, list; }
      groups := groups[sg.name := sg.(phase := Synced)];
      return true, list;
    }

    // ---- deletion ----

    /** storagegroupcontroller.go:605-648. */
    method RemoveDriveAndACStorageGroupLabel(drive: Drive) returns (removed: bool)
      requires Valid() && drive.name in drives && drives[drive.name] == drive
      modifies this`drives, client`acs
      ensures Valid() && (removed <==> !HasVolumes(client.volumes, client.lvgs, drive.name))
      ensures drives == if removed then old(drives)[drive.name := drive.(group := None)] else old(drives)
      ensures client.acs == if removed then Unlabel(old(client.acs), {PlaceOf(client.lvgs, drive.name)}) else old(client.acs)
    {
      var volumes := GetVolumesByLocation(client.volumes, client.lvgs, drive.name);
      if |volumes| > 0 { return false; }
      var location := drive.name;
      var lvg := GetLVGByDrive(client.lvgs, drive.name);
      if lvg.Some? { location := lvg.value.name; }
      PlaceIs(client.lvgs, drive.name, location);
      var ac := GetACByLocation(client.acs, location);
      if ac.Some? {
        UnlabelOne(client.acs, ac.value.name);
        UpdateACLabel(ac.value, None);
      } else {
        assert Unlabel(client.acs, {location}) == client.acs;
      }
      UpdateDriveLabel(drive, None);
      return true;
    }

    /** storagegroupcontroller.go:401-435: drives with volumes keep their labels and hold the deletion up.
        `finalized` says that the group's finalizer goes. */
    method HandleStorageGroupDeletion(sg: Group) returns (finalized: bool, ghost cleared: set<string>)
      requires Valid()
      modifies this`drives, client`acs
      ensures Valid() && cleared == Clearable(old(drives), sg, client.volumes, client.lvgs)
      ensures drives == Unlabelled(old(drives), cleared) && client.acs == Unlabel(old(client.acs), Places(client.lvgs, cleared))
      ensures finalized <==> forall d :: d in drives ==> drives[d].group != Some(sg.name)
      ensures forall d :: d in cleared <==> d in old(drives) && old(drives)[d].group == Some(sg.name)
                                            && forall i :: i in client.volumes ==> client.volumes[i].location != PlaceOf(client.lvgs, d)
      ensures drives.Keys == old(drives).Keys
      ensures forall d :: d in drives ==> drives[d] == if d in cleared then old(drives)[d].(group := None) else old(drives)[d]
      ensures client.acs.Keys == old(client.acs).Keys
      ensures forall a :: a in client.acs ==>
                client.acs[a] == if exists d :: d in cleared && PlaceOf(client.lvgs, d) == old(client.acs)[a].location
                                 then old(client.acs)[a].(group := None) else old(client.acs)[a]
    {
      hide HasVolumes, Unlabel, Unlabelled, DistinctLocations, Lists, Cleared;
      var drivesList := ReadList(drives);
      ListsDrives(drivesList, drives);
      NothingCleared(drives, client.acs, client.lvgs, drivesList, sg, client.volumes);
      var driveHasExistingVolumes := false;
      cleared := {};
      for i := 0 to |drivesList|
        invariant Valid() && drives == Unlabelled(old(drives), cleared) && client.acs == Unlabel(old(client.acs), Places(client.lvgs, cleared))
        invariant cleared == Cleared(drivesList, sg, i, client.volumes, client.lvgs)
        invariant driveHasExistingVolumes <==> exists j :: 0 <= j < i && Blocks(drivesList[j], sg, client.volumes, client.lvgs)
      {
        var drive := drivesList[i];
        ClearedNext(old(drives), drivesList, sg, i, client.volumes, client.lvgs);
        if drive.group == Some(sg.name) {
          var successful := RemoveDriveAndACStorageGroupLabel(drive);
          if successful {
            UnlabelMore(old(drives), old(client.acs), client.lvgs, cleared, drive.name);
            cleared := cleared + {drive.name};
          } else {
            driveHasExistingVolumes := true;
          }
        }
      }
      AllCleared(old(drives), drivesList, sg, client.volumes, client.lvgs);
      ClearableMeans(old(drives), old(client.acs), sg, client.volumes, client.lvgs);
      finalized := !driveHasExistingVolumes;
    }

    // ---- labels of one drive ----

    method UpdateDriveLabel(drive: Drive, sgLabel: Option<string>)
      requires Valid() && drive.name in drives && drives[drive.name] == drive
      modifies this`drives
      ensures Valid() && drives == old(drives)[drive.name := drive.(group := sgLabel)]
    {
      drives := drives[drive.name := drive.(group := sgLabel)];
    }

    method UpdateACLabel(ac: AC, sgLabel: Option<string>)
      requires Valid() && ac.name in client.acs && client.acs[ac.name] == ac
      modifies client`acs
      ensures Valid() && client.acs == old(client.acs)[ac.name := ac.(group := sgLabel)]
    {
      client.acs := client.acs[ac.name := ac.(group := sgLabel)];
    }

    /** The loop of storagegroupcontroller.go:188-217: it ends at the first group that labels the drive
        on its own; groups with a quota seen before that are synced again. */
    method MatchGroups(drive: string) returns (found: Option<string>)
      requires forall g :: g in groups ==> groups[g].name == g
      modifies this`groups
      ensures found.None? <==> NoAuto(old(groups), drive)
      ensures found.Some? ==>
                && found.value in old(groups) && Auto(old(groups)[found.value], drive)
                && var sg := old(groups)[found.value];
                   sg.number == 0 && (sg.phase.Synced? || sg.phase.Syncing?) && drive in sg.matched
      ensures found.None? ==>
                forall g :: g in old(groups) && old(groups)[g].number == 0 && drive in old(groups)[g].matched ==>
                  !old(groups)[g].phase.Synced? && !old(groups)[g].phase.Syncing?
      ensures Retriggered(old(groups), groups, drive)
      ensures forall g :: g in old(groups) && g in groups && groups[g] != old(groups)[g] ==>
                && old(groups)[g].number != 0 && old(groups)[g].phase.Synced? && drive in old(groups)[g].matched
                && groups[g] == old(groups)[g].(phase := Syncing)
      ensures found.None? ==> forall g :: g in groups && MayFill(old(groups)[g], drive) ==> groups[g].phase.Syncing?
      ensures found.None? ==>
                forall g :: g in old(groups) && old(groups)[g].number != 0 && old(groups)[g].phase.Synced? && drive in old(groups)[g].matched ==>
                  g in groups && groups[g].phase.Syncing?
    {
      hide Lists, Seen, Retriggered;
      var sgList := ReadList(groups);
      NothingSeen(sgList, groups, drive);
      for i := 0 to |sgList|
        invariant Seen(sgList, i, old(groups), groups, drive)
      {
        SeenNext(sgList, i, old(groups), groups, drive);
        var sg := sgList[i];
        if (sg.phase.Synced? || (sg.phase.Syncing? && sg.number == 0)) && drive in sg.matched {
          if sg.number == 0 {
            RetriggeredMeans(old(groups), groups, drive);
            return Some(sg.name);
          }
          if sg.phase.Synced? { groups := groups[sg.name := sg.(phase := Syncing)]; }
        }
      }
      AllSeen(sgList, old(groups), groups, drive);
      RetriggeredMeans(old(groups), groups, drive);
      return None;
    }

    /** storagegroupcontroller.go:178-219. */
    method FindAndAddMatchedStorageGroupLabel(drive: Drive, ac: AC) returns (ghost x: Option<string>)
      requires Valid() && drive.name in drives && drives[drive.name] == drive && ac.name in client.acs && client.acs[ac.name] == ac
      requires drive.group.None? && ac.group.None?
      modifies this, client`acs
      ensures Valid() && Labelled(old(drives), drives, old(client.acs), client.acs, drive, ac, x)
      ensures x.None? <==> NoAuto(old(groups), drive.name)
      ensures x.Some? ==> x.value in old(groups) && Auto(old(groups)[x.value], drive.name)
      ensures Retriggered(old(groups), groups, drive.name)
      ensures x.None? ==> forall g :: g in groups && MayFill(old(groups)[g], drive.name) ==> groups[g].phase.Syncing?
    {
      hide DistinctLocations;
      assert drives[drive.name := drive] == drives && client.acs[ac.name := ac] == client.acs;
      var found := MatchGroups(drive.name);
      x := found;
      if found.Some? {
        UpdateDriveLabel(drive, found);
        UpdateACLabel(ac, found);
      }
    }

    /** storagegroupcontroller.go:221-251. */
    method HandleSeparateDriveStorageGroupLabelAddition(drive: Drive, ac: AC, driveSGLabel: string, lvgExists: bool)
      requires Valid() && drive.name in drives && drives[drive.name] == drive && ac.name in client.acs && client.acs[ac.name] == ac
      requires drive.group == Some(driveSGLabel) && ac.group.None?
      modifies this, client`acs
      ensures Valid()
      ensures Labelled(old(drives), drives, old(client.acs), client.acs, drive, ac,
                       if drive.isClean && !lvgExists && ac.size != 0 then drive.group else None)
      ensures Retriggered(old(groups), groups, drive.name)
      ensures !drive.isClean || lvgExists || ac.size == 0 ==>
                forall g :: g in groups && g == driveSGLabel && MayFill(old(groups)[g], drive.name) && old(groups)[g].number > 0
                  ==> groups[g].phase.Syncing?
    {
      assert drives[drive.name := drive] == drives && client.acs[ac.name := ac] == client.acs;
      if !drive.isClean || lvgExists || ac.size == 0 {
        if driveSGLabel in groups {
          var sg := groups[driveSGLabel];
          if sg.phase.Synced? && sg.number > 0 && drive.name in sg.matched {
            groups := groups[driveSGLabel := sg.(phase := Syncing)];
          }
        }
        UpdateDriveLabel(drive, None);
        return;
      }
      UpdateACLabel(ac, Some(driveSGLabel));
    }

    /** storagegroupcontroller.go:253-293. */
    method HandleManualDriveStorageGroupLabelRemoval(drive: Drive, ac: AC, acSGLabel: string)
      requires Valid() && drive.name in drives && drives[drive.name] == drive && ac.name in client.acs && client.acs[ac.name] == ac
      requires drive.group.None? && ac.group == Some(acSGLabel)
      modifies this`drives, client`acs
      ensures Valid()
      ensures Labelled(old(drives), drives, old(client.acs), client.acs, drive, ac,
                       if HasVolumes(client.volumes, client.lvgs, drive.name) || Keeps(groups, acSGLabel, drive.name) then ac.group else None)
      ensures drives[drive.name].group.Some? <==>
                || (exists i :: i in client.volumes && client.volumes[i].location == PlaceOf(client.lvgs, drive.name))
                || (acSGLabel in groups && drive.name in groups[acSGLabel].matched
                    && (groups[acSGLabel].phase.Synced? || groups[acSGLabel].phase.Syncing?))
    {
      assert drives[drive.name := drive] == drives && client.acs[ac.name := ac] == client.acs;
      var volumes := GetVolumesByLocation(client.volumes, client.lvgs, drive.name);
      if |volumes| > 0 {
        UpdateDriveLabel(drive, Some(acSGLabel));
        return;
      }
      if acSGLabel in groups && (groups[acSGLabel].phase.Synced? || groups[acSGLabel].phase.Syncing?)
         && drive.name in groups[acSGLabel].matched {
        UpdateDriveLabel(drive, Some(acSGLabel));
      } else {
        UpdateACLabel(ac, None);
      }
    }

    /** storagegroupcontroller.go:296-348. `ac` is the AC found for the drive, if any. */
    method ReconcileDriveStorageGroupLabel(drive: Drive) returns (ac: Option<AC>)
      requires Valid() && drive.name in drives && drives[drive.name] == drive
      modifies this, client`acs
      ensures Valid()
      ensures ac.None? ==> drives == old(drives) && client.acs == old(client.acs) && groups == old(groups)
                           && forall a :: a in client.acs ==> client.acs[a].location != PlaceOf(client.lvgs, drive.name)
      ensures ac.Some? ==>
                && ac.value.name in old(client.acs) && old(client.acs)[ac.value.name] == ac.value
                && ac.value.location == PlaceOf(client.lvgs, drive.name)
                && SyncedTo(old(drives), drives, old(client.acs), client.acs, old(groups), client.volumes, client.lvgs, drive, ac.value)
    {
      assert forall a :: a in client.acs ==> client.acs[a].name == a;
      hide DistinctLocations;
      var location := drive.name;
      var lvg := GetLVGByDrive(client.lvgs, drive.name);
      if lvg.Some? { location := lvg.value.name; }
      PlaceIs(client.lvgs, drive.name, location);
      ac := GetACByLocation(client.acs, location);
      if ac.None? { return; }
      assert drives[drive.name := drive] == drives && client.acs[ac.value.name := ac.value] == client.acs;
      var acSGLabel, driveSGLabel := LabelOf(ac.value.group), LabelOf(drive.group);
      if acSGLabel == driveSGLabel {
        if ac.value.group.None? && drive.group.None? && drive.isClean && lvg.None? && ac.value.size > 0 {
          ghost var x := FindAndAddMatchedStorageGroupLabel(drive, ac.value);
        }
        return;
      }
      if ac.value.group.None? && drive.group.Some? {
        HandleSeparateDriveStorageGroupLabelAddition(drive, ac.value, driveSGLabel, lvg.Some?);
      } else if ac.value.group.Some? && drive.group.None? {
        HandleManualDriveStorageGroupLabelRemoval(drive, ac.value, acSGLabel);
      } else {
        UpdateDriveLabel(drive, Some(acSGLabel));
      }
    }
  }

  /** No drive lies between one candidate and the next for which the node still has room. */
  lemma SkipTo(acs: map<string, AC>, lvgs: map<string, LVG>, list: seq<Drive>, sg: Group, candidates: seq<Drive>, pos: seq<nat>,
               k: nat, upto: nat)
    requires Collected(acs, list, sg, |list|, candidates, pos) && k <= |pos|
    requires if k == 0 then upto == 0 else upto == pos[k - 1] + 1
    ensures var next := if k == |pos| then |list| else pos[k];
            && upto <= next <= |list| && Picked(acs, list, sg, upto) == Picked(acs, list, sg, next)
            && (forall n :: Picks(acs, list, sg, n, upto) == Picks(acs, list, sg, n, next))
            && (Fails(acs, lvgs, list, sg, upto) <==> Fails(acs, lvgs, list, sg, next))
  {
    var next := if k == |pos| then |list| else pos[k];
    hide Chosen, Tried, Fails, Picked, Picks;
    forall j | upto <= j < next ensures !Tried(acs, list, sg, j) {
    }
    forall j | upto <= j < next ensures !Chosen(acs, list, sg, j) {
      ChosenIsTried(acs, list, sg, j);
    }
    NoneBetween(acs, list, sg, upto, next);
    FailsNot(acs, lvgs, list, sg, upto, next);
  }

  /** After a sync, drive and AC carry the same label. */
  lemma LabelsAgree(ds: map<string, Drive>, ds': map<string, Drive>, acs: map<string, AC>, acs': map<string, AC>,
                    groups: map<string, Group>, volumes: map<string, Volume>, lvgs: map<string, LVG>, drive: Drive, ac: AC)
    requires SyncedTo(ds, ds', acs, acs', groups, volumes, lvgs, drive, ac)
    requires drive.name in ds && ds[drive.name] == drive && ac.name in acs && acs[ac.name] == ac
    ensures drive.name in ds' && ac.name in acs' && LabelOf(ds'[drive.name].group) == LabelOf(acs'[ac.name].group)
    ensures forall d :: d in ds && d != drive.name ==> d in ds' && ds'[d] == ds[d]
    ensures forall a :: a in acs && a != ac.name ==> a in acs' && acs'[a] == acs[a]
  {
  }

  /** Which label both carry in the end. A label only on the drive reaches the AC of a clean drive that offers space and is not
      an LVG, and is taken off otherwise; a label only on the AC comes back to the drive while a volume lies on it or the
      group still selects it, and goes otherwise; of two different labels the AC's wins. */
  lemma SyncOutcome(ds: map<string, Drive>, ds': map<string, Drive>, acs: map<string, AC>, acs': map<string, AC>,
                    groups: map<string, Group>, volumes: map<string, Volume>, lvgs: map<string, LVG>, drive: Drive, ac: AC)
    requires SyncedTo(ds, ds', acs, acs', groups, volumes, lvgs, drive, ac)
    requires drive.name in ds && ds[drive.name] == drive && ac.name in acs && acs[ac.name] == ac
    requires ac.group != Some("") && drive.group != Some("")
    ensures drive.name in ds'
    ensures var x := ds'[drive.name].group;
            var clear := drive.isClean && PlaceOf(lvgs, drive.name) == drive.name;
            var held := (exists i :: i in volumes && volumes[i].location == PlaceOf(lvgs, drive.name))
                        || (ac.group.Some? && ac.group.value in groups && drive.name in groups[ac.group.value].matched
                            && (groups[ac.group.value].phase.Synced? || groups[ac.group.value].phase.Syncing?));
            && (ac.group.Some? && drive.group.Some? ==> x == ac.group)
            && (ac.group.None? && drive.group.Some? ==> x == if clear && ac.size != 0 then drive.group else None)
            && (ac.group.Some? && drive.group.None? ==> x == if held then ac.group else None)
            && (ac.group.None? && drive.group.None? && !(clear && ac.size > 0) ==> x.None?)
            && (ac.group.None? && drive.group.None? && clear && ac.size > 0 ==>
                  (x.Some? <==> exists g :: g in groups && groups[g].number == 0 && drive.name in groups[g].matched
                                            && (groups[g].phase.Synced? || groups[g].phase.Syncing?)))
  {
    hide PlaceOf;
  }

  // ---- labels and data ----

  /** The drive behind a location: the location itself, or the LVG's drive. */
  function DriveAt(lvgs: map<string, LVG>, location: string): string {
    if location in lvgs && lvgs[location].locations != [] then lvgs[location].locations[0] else location
  }

  /** Whole-drive volumes leave their AC empty and keep LVGs off their drive, LVM volumes sit on an
      LVG, and a drive with an LVG has no AC of its own. */
  ghost predicate Consistent(acs: map<string, AC>, volumes: map<string, Volume>, lvgs: map<string, LVG>) {
    && (forall l :: l in lvgs ==> lvgs[l].locations != [])
    && (forall i :: i in volumes ==> (volumes[i].onLVM <==> volumes[i].location in lvgs))
    && (forall i, a :: i in volumes && a in acs && !volumes[i].onLVM && volumes[i].location == acs[a].location ==> acs[a].size == 0)
    && (forall i, l :: i in volumes && l in lvgs && !volumes[i].onLVM ==> !MadeOf(lvgs[l], volumes[i].location))
    && (forall a, l :: a in acs && l in lvgs ==> !MadeOf(lvgs[l], acs[a].location))
  }

  /** A volume lies on the drive whose capacity AC a describes. */
  ghost predicate Occupied(acs: map<string, AC>, volumes: map<string, Volume>, lvgs: map<string, LVG>, a: string)
    requires a in acs
  {
    exists i :: i in volumes && DriveAt(lvgs, volumes[i].location) == DriveAt(lvgs, acs[a].location)
  }

  lemma Occupant(acs: map<string, AC>, volumes: map<string, Volume>, lvgs: map<string, LVG>, a: string) returns (i: string)
    requires Consistent(acs, volumes, lvgs) && OneLVGEach(lvgs) && a in acs && Occupied(acs, volumes, lvgs, a)
    ensures i in volumes && volumes[i].location == acs[a].location
  {
    i :| i in volumes && DriveAt(lvgs, volumes[i].location) == DriveAt(lvgs, acs[a].location);
    var vl, al := volumes[i].location, acs[a].location;
    if vl in lvgs {
      assert MadeOf(lvgs[vl], DriveAt(lvgs, vl));
      if al in lvgs { assert MadeOf(lvgs[al], DriveAt(lvgs, vl)); }
    } else if al in lvgs {
      assert MadeOf(lvgs[al], vl);
    }
  }

  /** A group sync leaves the label of every AC alone whose drive holds a volume. */
  lemma SyncRespectsData(acs: map<string, AC>, volumes: map<string, Volume>, lvgs: map<string, LVG>, list: seq<Drive>, sg: Group, a: string)
    requires DistinctLocations(acs) && Consistent(acs, volumes, lvgs) && OneLVGEach(lvgs)
    requires forall i :: 0 <= i < |list| ==> list[i].name !in lvgs
    requires a in acs && Occupied(acs, volumes, lvgs, a)
    ensures LabelACs(acs, Picked(acs, list, sg, |list|), sg.name)[a] == acs[a]
  {
    var i := Occupant(acs, volumes, lvgs, a);
  }

  /** So does the label sync of a drive. */
  lemma LabelSyncRespectsData(ds: map<string, Drive>, ds': map<string, Drive>, acs: map<string, AC>, acs': map<string, AC>,
                              groups: map<string, Group>, volumes: map<string, Volume>, lvgs: map<string, LVG>,
                              drive: Drive, ac: AC, a: string)
    requires SyncedTo(ds, ds', acs, acs', groups, volumes, lvgs, drive, ac) && ac.name in acs && acs[ac.name] == ac
    requires ac.location == PlaceOf(lvgs, drive.name) && drive.name !in lvgs
    requires Consistent(acs, volumes, lvgs) && OneLVGEach(lvgs) && a in acs && Occupied(acs, volumes, lvgs, a)
    ensures a in acs' && acs'[a] == acs[a]
  {
    if a == ac.name {
      var i := Occupant(acs, volumes, lvgs, a);
      assert HasVolumes(volumes, lvgs, drive.name);
      hide HasVolumes, Occupied, OneLVGEach;
      if PlaceOf(lvgs, drive.name) == drive.name { assert ac.size == 0; }
    }
  }

  /** And the deletion of a group. */
  lemma DeletionRespectsData(drives: map<string, Drive>, acs: map<string, AC>, volumes: map<string, Volume>, lvgs: map<string, LVG>,
                             sg: Group, a: string)
    requires Consistent(acs, volumes, lvgs) && OneLVGEach(lvgs) && a in acs && Occupied(acs, volumes, lvgs, a)
    ensures Unlabel(acs, Places(lvgs, Clearable(drives, sg, volumes, lvgs)))[a] == acs[a]
  {
    var i := Occupant(acs, volumes, lvgs, a);
    hide Occupied, OneLVGEach, Consistent, PlaceOf;
  }

  lemma PickedIffChosen(acs: map<string, AC>, list: seq<Drive>, sg: Group, i: nat)
    requires i < |list| && DistinctNames(list)
    ensures list[i].name in Picked(acs, list, sg, |list|) <==> Chosen(acs, list, sg, i)
  {
    hide Chosen;
  }

  lemma SameKeysListed<T>(list: seq<T>, m: map<string, T>, keys: seq<string>, r: seq<T>, m': map<string, T>)
    requires ListedBy(list, m, keys) && m.Keys == m'.Keys && |r| == |list|
    requires forall i :: 0 <= i < |r| ==> keys[i] in m' ==> r[i] == m'[keys[i]]
    ensures Lists(r, m')
  {
    assert |m| == |m.Keys| && |m'| == |m'.Keys|;
    assert ListedBy(r, m', keys);
  }

  /** The list QuotaIsMet counts is what the store holds after HandleStorageGroupCreationOrUpdate. */
  lemma RelabelledIsStored(drives: map<string, Drive>, acs: map<string, AC>, list: seq<Drive>, sg: Group)
    requires Lists(list, drives) && forall d :: d in drives ==> drives[d].name == d
    ensures Lists(Relabelled(acs, list, sg), LabelDrives(drives, Picked(acs, list, sg, |list|), sg.name))
  {
    var keys :| ListedBy(list, drives, keys);
    var r, after := Relabelled(acs, list, sg), LabelDrives(drives, Picked(acs, list, sg, |list|), sg.name);
    ListsDrives(list, drives);
    assert forall i :: 0 <= i < |list| ==> keys[i] == list[i].name;
    hide Chosen, Picked, ListedBy, DistinctNames;
    forall i | 0 <= i < |r| ensures keys[i] in after ==> r[i] == after[keys[i]] {
      PickedIffChosen(acs, list, sg, i);
    }
    SameKeysListed(list, drives, keys, r, after);
  }
}
