// Drive discovery, updateDrivesCRs of pkg/node/volumemgr.go: bringing a node's Drive CRs in line with
// the drives its drive manager reports.

module Discovery {
  import opened Types

  /** drivesAreTheSame compares exactly these. */
  datatype Identity = Identity(serial: string, vid: string, pid: string)

  /** A reported drive. `firmware` stands for the fields that Equals does not look at. */
  datatype Disk = Disk(id: Identity, nodeId: string, online: bool, health: Health, kind: string, size: int,
                       path: string, ledState: string, firmware: string)

  /** The health-override annotation: absent, unreadable, or a health. */
  datatype Override = NoOverride | BadOverride | Override(health: Health)

  datatype DriveCR = DriveCR(uuid: string, disk: Disk, usage: Usage, isSystem: bool, isClean: bool, override: Override)

  /** overrideDriveHealth. */
  function Overridden(d: Disk, o: Override): Disk {
    if o.Override? then d.(health := o.health) else d
  }

  /** Equals, api/v1/drivecrd/drive_types.go:76-87. */
  predicate Equals(c: DriveCR, d: Disk) {
    c.disk.(firmware := d.firmware) == d
  }

  function Updated(c: DriveCR, d: Disk): DriveCR {
    if Equals(c, Overridden(d, c.override)) then c else c.(disk := Overridden(d, c.override))
  }

  function WentOffline(c: DriveCR): DriveCR {
    var d := c.disk.(online := false);
    c.(disk := if c.override.NoOverride? then d.(health := Unknown) else Overridden(d, c.override))
  }

  function NewCR(uuid: string, d: Disk, node: string, system: set<string>): DriveCR {
    DriveCR(uuid, d.(nodeId := node), DriveInUse, d.path in system, d.path !in system, NoOverride)
  }

  /** No two reported drives with a serial number are the same. */
  ghost predicate DistinctIds(report: seq<Disk>) {
    forall i, j :: 0 <= i < j < |report| && report[i].id == report[j].id ==> report[i].id.serial == ""
  }

  /** The CR of the node's drive with this identity. */
  ghost predicate CRFor(drives: map<string, DriveCR>, node: string, id: Identity, u: string) {
    u in drives && drives[u].disk.nodeId == node && drives[u].disk.id == id
  }

  ghost predicate HasCR(drives: map<string, DriveCR>, node: string, id: Identity) {
    exists u :: CRFor(drives, node, id, u)
  }

  ghost predicate UniqueIds(drives: map<string, DriveCR>, node: string) {
    && (forall u :: u in drives ==> drives[u].uuid == u)
    && (forall id, u :: CRFor(drives, node, id, u) ==> id.serial != "")
    && forall id, u, v :: CRFor(drives, node, id, u) && CRFor(drives, node, id, v) ==> u == v
  }

  /** A new drive gets a CR if it can be identified and is there. */
  predicate Creatable(d: Disk) {
    d.id.serial != "" && d.online
  }

  ghost predicate Creates(drives: map<string, DriveCR>, node: string, d: Disk) {
    Creatable(d) && !HasCR(drives, node, d.id)
  }

  // ---- one pass, as a relation on the drive CRs ----

  /** Among the first k reported drives, i is the one with this identity. */
  ghost predicate Reports(report: seq<Disk>, k: int, id: Identity, i: int) {
    0 <= i < k <= |report| && report[i].id == id
  }

  ghost predicate Existing(a: DriveCR, b: DriveCR, report: seq<Disk>, k: int, complete: bool) {
    && (forall i :: Reports(report, k, a.disk.id, i) ==> b == Updated(a, report[i]))
    && ((forall i :: !Reports(report, k, a.disk.id, i)) ==> b == if complete then WentOffline(a) else a)
  }

  /** b follows from a: CRs of this node are brought up to date, those of other nodes are left alone, and
      the new drives among the first k get CRs under their fresh UUIDs. */
  ghost predicate Passed(a: map<string, DriveCR>, b: map<string, DriveCR>, report: seq<Disk>, k: int, uuids: seq<string>,
                         node: string, system: set<string>, complete: bool)
    requires 0 <= k <= |report| == |uuids|
  {
    && (forall u :: u in a ==> u in b)
    && (forall u :: u in a && a[u].disk.nodeId != node ==> b[u] == a[u])
    && (forall u :: u in a && a[u].disk.nodeId == node ==> Existing(a[u], b[u], report, k, complete))
    && (forall u :: u in b && u !in a ==> exists i :: 0 <= i < k && Created(a, b, report[i], uuids[i], node, system) && uuids[i] == u)
    && (forall i :: 0 <= i < k && Creates(a, node, report[i]) ==> Created(a, b, report[i], uuids[i], node, system))
  }

  ghost predicate Created(a: map<string, DriveCR>, b: map<string, DriveCR>, d: Disk, uuid: string, node: string, system: set<string>) {
    Creates(a, node, d) && uuid in b && b[uuid] == NewCR(uuid, d, node, system)
  }

  /** UUIDs made up for a pass. */
  ghost predicate FreshIds(uuids: seq<string>, drives: map<string, DriveCR>) {
    Distinct(uuids) && forall i :: 0 <= i < |uuids| ==> uuids[i] !in drives
  }

  // ---- what a pass guarantees ----

  predicate SameDrive(x: DriveCR, y: DriveCR) {
    && y.uuid == x.uuid && y.usage == x.usage && y.isSystem == x.isSystem && y.isClean == x.isClean
    && y.override == x.override && y.disk.id == x.disk.id
  }

  lemma ExistingIsSame(x: DriveCR, y: DriveCR, report: seq<Disk>, k: int, complete: bool)
    requires Existing(x, y, report, k, complete)
    ensures SameDrive(x, y)
    ensures complete && k == |report| && (forall i :: 0 <= i < |report| ==> report[i].id != x.disk.id) ==> !y.disk.online
  {
    if i :| Reports(report, k, x.disk.id, i) { assert y == Updated(x, report[i]); }
  }

  /** UUID, usage, system flag and cleanliness of an existing CR survive; an unreported drive is marked offline. */
  lemma PassKeepsFields(a: map<string, DriveCR>, b: map<string, DriveCR>, report: seq<Disk>, uuids: seq<string>,
                        node: string, system: set<string>, u: string)
    requires |uuids| == |report| && Passed(a, b, report, |report|, uuids, node, system, true) && u in a
    ensures u in b && SameDrive(a[u], b[u])
    ensures a[u].disk.nodeId == node && (forall i :: 0 <= i < |report| ==> report[i].id != a[u].disk.id) ==> !b[u].disk.online
  {
    if a[u].disk.nodeId == node { ExistingIsSame(a[u], b[u], report, |report|, true); }
    hide Existing, Created, Creates;
  }

  /** What the drive manager reports of a drive reaches its CR: node, online, kind, size, path and LED state, and the health
      unless an annotation overrides it. A change of the firmware alone does not. */
  lemma ReportReachesCR(a: map<string, DriveCR>, b: map<string, DriveCR>, report: seq<Disk>, uuids: seq<string>,
                        node: string, system: set<string>, i: nat, u: string)
    requires |uuids| == |report| && Passed(a, b, report, |report|, uuids, node, system, true)
    requires i < |report| && u in a && a[u].disk.nodeId == node && a[u].disk.id == report[i].id
    ensures u in b
    ensures var x, d := b[u].disk, report[i];
            && x.nodeId == d.nodeId && x.online == d.online && x.kind == d.kind && x.size == d.size
            && x.path == d.path && x.ledState == d.ledState && (b[u] == a[u] || x.firmware == d.firmware)
            && (x.(firmware := a[u].disk.firmware) == a[u].disk ==> b[u] == a[u])
            && x.health == (match a[u].override case Override(h) => h case NoOverride => d.health case BadOverride => d.health)
  {
    assert Existing(a[u], b[u], report, |report|, true) && Reports(report, |report|, a[u].disk.id, i);
    hide Passed, Existing, Reports;
    ReachedBy(a[u], report[i]);
  }

  lemma ReachedBy(c: DriveCR, d: Disk)
    requires c.disk.id == d.id
    ensures Updated(c, d).disk.(firmware := d.firmware) == d.(health := if c.override.Override? then c.override.health else d.health)
    ensures Updated(c, d) == c || Updated(c, d).disk.firmware == d.firmware
    ensures Updated(c, d).disk.(firmware := c.disk.firmware) == c.disk ==> Updated(c, d) == c
  {
  }

  /** A drive that is not reported is offline, its health is UNKNOWN unless an annotation overrides it, and the rest stays. */
  lemma UnreportedGoesOffline(a: map<string, DriveCR>, b: map<string, DriveCR>, report: seq<Disk>, uuids: seq<string>,
                              node: string, system: set<string>, u: string)
    requires |uuids| == |report| && Passed(a, b, report, |report|, uuids, node, system, true)
    requires u in a && a[u].disk.nodeId == node && forall i :: 0 <= i < |report| ==> report[i].id != a[u].disk.id
    ensures u in b
    ensures b[u] == a[u].(disk := a[u].disk.(online := false,
                            health := match a[u].override case Override(h) => h case NoOverride => Unknown case BadOverride => a[u].disk.health))
  {
    assert Existing(a[u], b[u], report, |report|, true);
  }

  /** CRs of other nodes are left alone. A CR is made of what was reported, under the ID of the manager: IN_USE, and system
      or clean by its path. */
  lemma NewCRsAre(a: map<string, DriveCR>, b: map<string, DriveCR>, report: seq<Disk>, uuids: seq<string>,
                  node: string, system: set<string>, u: string) returns (i: nat)
    requires |uuids| == |report| && Passed(a, b, report, |report|, uuids, node, system, true)
    requires u in b && (u in a ==> a[u].disk.nodeId != node)
    ensures u in a ==> b[u] == a[u]
    ensures u !in a ==>
              && i < |report| && uuids[i] == u && report[i].id.serial != "" && report[i].online
              && b[u].uuid == u && b[u].disk == report[i].(nodeId := node) && b[u].usage.DriveInUse? && b[u].override.NoOverride?
              && (b[u].isSystem <==> report[i].path in system) && (b[u].isClean <==> report[i].path !in system)
  {
    i := 0;
    if u !in a { i := MadeFrom(a, b, report, uuids, node, system, u); }
    hide HasCR;
  }

  lemma WasHere(a: map<string, DriveCR>, b: map<string, DriveCR>, report: seq<Disk>, uuids: seq<string>,
                node: string, system: set<string>, id: Identity, u: string)
    requires |uuids| == |report| && Passed(a, b, report, |report|, uuids, node, system, true) && u in a && CRFor(b, node, id, u)
    ensures CRFor(a, node, id, u)
  {
    PassKeepsFields(a, b, report, uuids, node, system, u);
  }

  /** What a CR made in the pass was made from. */
  lemma MadeFrom(a: map<string, DriveCR>, b: map<string, DriveCR>, report: seq<Disk>, uuids: seq<string>,
                 node: string, system: set<string>, u: string) returns (i: nat)
    requires |uuids| == |report| && Passed(a, b, report, |report|, uuids, node, system, true) && u in b && u !in a
    ensures i < |report| && uuids[i] == u && Creates(a, node, report[i]) && b[u] == NewCR(u, report[i], node, system)
  {
    i :| 0 <= i < |report| && Created(a, b, report[i], uuids[i], node, system) && uuids[i] == u;
  }

  /** A pass never gives two CRs of the node the same identity. */
  lemma PassKeepsUnique(a: map<string, DriveCR>, b: map<string, DriveCR>, report: seq<Disk>, uuids: seq<string>,
                        node: string, system: set<string>)
    requires UniqueIds(a, node) && DistinctIds(report) && |uuids| == |report| && FreshIds(uuids, a)
    requires Passed(a, b, report, |report|, uuids, node, system, true)
    ensures UniqueIds(b, node)
  {
    hide Passed, UniqueIds, HasCR;
    forall u | u in b ensures b[u].uuid == u { KeepsUuid(a, b, report, uuids, node, system, u); }
    forall id, u, v | CRFor(b, node, id, u) && CRFor(b, node, id, v) ensures u == v {
      SameIdSameCR(a, b, report, uuids, node, system, id, u, v);
    }
    forall id, u | CRFor(b, node, id, u) ensures id.serial != "" { IsIdentified(a, b, report, uuids, node, system, id, u); }
    AreUnique(b, node);
  }

  lemma IsIdentified(a: map<string, DriveCR>, b: map<string, DriveCR>, report: seq<Disk>, uuids: seq<string>,
                     node: string, system: set<string>, id: Identity, u: string)
    requires UniqueIds(a, node) && |uuids| == |report|
    requires Passed(a, b, report, |report|, uuids, node, system, true) && CRFor(b, node, id, u)
    ensures id.serial != ""
  {
    hide Passed;
    if u in a {
      WasHere(a, b, report, uuids, node, system, id, u);
    } else {
      var i := MadeFrom(a, b, report, uuids, node, system, u);
    }
  }

  lemma AreUnique(b: map<string, DriveCR>, node: string)
    requires forall id, u :: CRFor(b, node, id, u) ==> id.serial != ""
    requires forall u :: u in b ==> b[u].uuid == u
    requires forall id, u, v :: CRFor(b, node, id, u) && CRFor(b, node, id, v) ==> u == v
    ensures UniqueIds(b, node)
  {
  }

  lemma KeepsUuid(a: map<string, DriveCR>, b: map<string, DriveCR>, report: seq<Disk>, uuids: seq<string>,
                  node: string, system: set<string>, u: string)
    requires UniqueIds(a, node) && |uuids| == |report| && u in b && Passed(a, b, report, |report|, uuids, node, system, true)
    ensures b[u].uuid == u
  {
    hide Passed;
    if u in a { PassKeepsFields(a, b, report, uuids, node, system, u); }
    else { var i := MadeFrom(a, b, report, uuids, node, system, u); }
  }

  lemma SameIdSameCR(a: map<string, DriveCR>, b: map<string, DriveCR>, report: seq<Disk>, uuids: seq<string>,
                     node: string, system: set<string>, id: Identity, u: string, v: string)
    requires UniqueIds(a, node) && DistinctIds(report) && |uuids| == |report| && FreshIds(uuids, a)
    requires Passed(a, b, report, |report|, uuids, node, system, true)
    requires CRFor(b, node, id, u) && CRFor(b, node, id, v)
    ensures u == v
  {
    hide Passed;
    if u in a { WasHere(a, b, report, uuids, node, system, id, u); }
    if v in a { WasHere(a, b, report, uuids, node, system, id, v); }
    if u !in a {
      var i := MadeFrom(a, b, report, uuids, node, system, u);
      if v !in a {
        var j := MadeFrom(a, b, report, uuids, node, system, v);
        assert i == j;
      }
    } else if v !in a {
      var j := MadeFrom(a, b, report, uuids, node, system, v);
    }
  }

  /** Every reported drive with a serial number has its CR afterwards - unless it is new and offline. */
  lemma ReportedHasCR(a: map<string, DriveCR>, b: map<string, DriveCR>, report: seq<Disk>, uuids: seq<string>,
                      node: string, system: set<string>, i: nat)
    requires UniqueIds(a, node) && DistinctIds(report) && |uuids| == |report| && i < |report| && report[i].nodeId == node
    requires Passed(a, b, report, |report|, uuids, node, system, true)
    ensures HasCR(b, node, report[i].id) <==> HasCR(a, node, report[i].id) || (report[i].id.serial != "" && report[i].online)
  {
    var d := report[i];
    if u :| CRFor(a, node, d.id, u) {
      assert Reports(report, |report|, d.id, i);
      assert Existing(a[u], b[u], report, |report|, true);
      assert b[u] == Updated(a[u], d);
      assert CRFor(b, node, d.id, u);
    } else {
      if Creatable(d) { assert CRFor(b, node, d.id, uuids[i]); }
      hide Passed;
      if u :| CRFor(b, node, d.id, u) {
        if u in a { WasHere(a, b, report, uuids, node, system, d.id, u); }
        else {
          var j := MadeFrom(a, b, report, uuids, node, system, u);
          assert i == j;
        }
      }
    }
  }

  // ---- a second pass ----

  /** What a second look at an existing CR sees is what the first pass wrote. */
  lemma UpdatedOnce(c: DriveCR, d: Disk)
    ensures Updated(Updated(c, d), d) == Updated(c, d)
  {
  }

  lemma OfflineOnce(c: DriveCR)
    ensures WentOffline(WentOffline(c)) == WentOffline(c)
  {
  }

  lemma SecondLook(a: map<string, DriveCR>, b: map<string, DriveCR>, c: map<string, DriveCR>, report: seq<Disk>,
                   uuids: seq<string>, newIds: seq<string>, node: string, system: set<string>, u: string)
    requires DistinctIds(report) && |uuids| == |report| == |newIds| && u in a
    requires Passed(a, b, report, |report|, uuids, node, system, true) && Passed(b, c, report, |report|, newIds, node, system, true)
    ensures c[u] == b[u]
  {
    if a[u].disk.nodeId == node && b[u].disk.nodeId == node {
      assert Existing(a[u], b[u], report, |report|, true) && Existing(b[u], c[u], report, |report|, true);
      PassKeepsFields(a, b, report, uuids, node, system, u);
      if i :| Reports(report, |report|, a[u].disk.id, i) {
        UpdatedOnce(a[u], report[i]);
      } else {
        OfflineOnce(a[u]);
      }
    }
  }

  lemma SecondLookAtNew(a: map<string, DriveCR>, b: map<string, DriveCR>, c: map<string, DriveCR>, report: seq<Disk>,
                        uuids: seq<string>, newIds: seq<string>, node: string, system: set<string>, u: string)
    requires DistinctIds(report) && |uuids| == |report| == |newIds| && u in b && u !in a
    requires Passed(a, b, report, |report|, uuids, node, system, true) && Passed(b, c, report, |report|, newIds, node, system, true)
    ensures u in c
    ensures exists i :: 0 <= i < |report| && uuids[i] == u && Creates(a, node, report[i]) && (c[u] == b[u] <==> report[i].nodeId == node)
  {
    var i := MadeFrom(a, b, report, uuids, node, system, u);
    assert Existing(b[u], c[u], report, |report|, true);
    assert Reports(report, |report|, b[u].disk.id, i);
    assert c[u] == Updated(b[u], report[i]);
  }

  lemma MovedAway(a: map<string, DriveCR>, b: map<string, DriveCR>, report: seq<Disk>, uuids: seq<string>,
                  node: string, system: set<string>, i: nat)
    requires UniqueIds(a, node) && DistinctIds(report) && |uuids| == |report| && i < |report|
    requires report[i].nodeId != node && HasCR(a, node, report[i].id)
    requires Passed(a, b, report, |report|, uuids, node, system, true)
    ensures !HasCR(b, node, report[i].id)
  {
    var d := report[i];
    var u :| CRFor(a, node, d.id, u);
    assert Reports(report, |report|, d.id, i) && Existing(a[u], b[u], report, |report|, true);
    assert b[u] == Updated(a[u], d);
    hide Passed;
    if v :| CRFor(b, node, d.id, v) {
      if v in a { WasHere(a, b, report, uuids, node, system, d.id, v); }
      else { var j := MadeFrom(a, b, report, uuids, node, system, v); }
    }
  }

  lemma NoNewCRs(a: map<string, DriveCR>, b: map<string, DriveCR>, c: map<string, DriveCR>, report: seq<Disk>,
                 uuids: seq<string>, newIds: seq<string>, node: string, system: set<string>, v: string)
    requires UniqueIds(a, node) && DistinctIds(report) && |uuids| == |report| == |newIds|
    requires forall i :: 0 <= i < |report| && Creatable(report[i]) ==> report[i].nodeId == node
    requires Passed(a, b, report, |report|, uuids, node, system, true) && Passed(b, c, report, |report|, newIds, node, system, true)
    requires v in c
    ensures v in b
  {
    if v !in b {
      var i := MadeFrom(b, c, report, newIds, node, system, v);
      ReportedHasCR(a, b, report, uuids, node, system, i);
    }
  }

  /** Discovery settles after one pass exactly when every drive that can get a CR is reported under the
      node's own ID. Otherwise the second pass moves a CR to another node or makes a new one. */
  lemma SecondPassIsIdleIff(a: map<string, DriveCR>, b: map<string, DriveCR>, c: map<string, DriveCR>, report: seq<Disk>,
                            uuids: seq<string>, newIds: seq<string>, node: string, system: set<string>)
    requires UniqueIds(a, node) && DistinctIds(report) && |uuids| == |report| == |newIds|
    requires FreshIds(uuids, a) && FreshIds(newIds, b)
    requires Passed(a, b, report, |report|, uuids, node, system, true) && Passed(b, c, report, |report|, newIds, node, system, true)
    ensures c == b <==>
              forall i :: 0 <= i < |report| && report[i].id.serial != "" && report[i].online ==> report[i].nodeId == node
  {
    hide Passed, UniqueIds, DistinctIds, HasCR, FreshIds;
    KeysGrow(b, c, report, newIds, node, system);
    if forall i :: 0 <= i < |report| && Creatable(report[i]) ==> report[i].nodeId == node {
      forall v | v in c ensures v in b && c[v] == b[v] {
        NoNewCRs(a, b, c, report, uuids, newIds, node, system, v);
        if v in a { SecondLook(a, b, c, report, uuids, newIds, node, system, v); }
        else { SecondLookAtNew(a, b, c, report, uuids, newIds, node, system, v); }
      }
    } else {
      var i :| 0 <= i < |report| && Creatable(report[i]) && report[i].nodeId != node;
      SecondPassChanges(a, b, c, report, uuids, newIds, node, system, i);
    }
  }

  lemma KeysGrow(a: map<string, DriveCR>, b: map<string, DriveCR>, report: seq<Disk>, uuids: seq<string>,
                 node: string, system: set<string>)
    requires |uuids| == |report| && Passed(a, b, report, |report|, uuids, node, system, true)
    ensures forall u :: u in a ==> u in b
  {
  }

  lemma CreatesIt(a: map<string, DriveCR>, b: map<string, DriveCR>, report: seq<Disk>, uuids: seq<string>,
                  node: string, system: set<string>, i: nat)
    requires |uuids| == |report| && Passed(a, b, report, |report|, uuids, node, system, true)
    requires i < |report| && Creates(a, node, report[i])
    ensures uuids[i] in b
  {
    assert Created(a, b, report[i], uuids[i], node, system);
  }

  lemma SecondPassChanges(a: map<string, DriveCR>, b: map<string, DriveCR>, c: map<string, DriveCR>, report: seq<Disk>,
                          uuids: seq<string>, newIds: seq<string>, node: string, system: set<string>, i: nat)
    requires UniqueIds(a, node) && DistinctIds(report) && |uuids| == |report| == |newIds| && i < |report|
    requires FreshIds(uuids, a) && FreshIds(newIds, b) && Creatable(report[i]) && report[i].nodeId != node
    requires Passed(a, b, report, |report|, uuids, node, system, true) && Passed(b, c, report, |report|, newIds, node, system, true)
    ensures c != b
  {
    hide Passed, UniqueIds, HasCR;
    if HasCR(a, node, report[i].id) {
      MovedAway(a, b, report, uuids, node, system, i);
      CreatesIt(b, c, report, newIds, node, system, i);
    } else {
      CreatesIt(a, b, report, uuids, node, system, i);
      SecondLookAtNew(a, b, c, report, uuids, newIds, node, system, uuids[i]);
      var j :| 0 <= j < |report| && uuids[j] == uuids[i] && (c[uuids[i]] == b[uuids[i]] <==> report[j].nodeId == node);
      assert i == j;
    }
  }

  // ---- the loops ----

  class VolumeManager {
    const nodeID: string
    var drives: map<string, DriveCR>

    constructor (nodeID: string, drives: map<string, DriveCR>)
      ensures this.nodeID == nodeID && this.drives == drives
    {
      this.nodeID, this.drives := nodeID, drives;
    }

    /** GetDriveCRs(nodeID), cr_helper.go:312-334. */
    method GetDriveCRs() returns (driveCRs: seq<DriveCR>)
      requires UniqueIds(drives, nodeID)
      ensures Tracks(driveCRs, drives, drives, nodeID)
    {
      driveCRs := [];
      var todo := drives.Keys;
      while todo != {}
        invariant todo <= drives.Keys
        invariant forall j :: 0 <= j < |driveCRs| ==> Tracked(driveCRs[j], drives, drives, nodeID) && driveCRs[j].uuid !in todo
        invariant forall i, j :: 0 <= i < j < |driveCRs| ==> driveCRs[i].uuid != driveCRs[j].uuid
        invariant forall u :: u in drives && u !in todo && drives[u].disk.nodeId == nodeID ==> u in UuidsOf(driveCRs, |driveCRs|)
        decreases todo
      {
        var u :| u in todo;
        todo := todo - {u};
        if drives[u].disk.nodeId == nodeID {
          UuidsAppend(driveCRs, drives[u]);
          driveCRs := driveCRs + [drives[u]];
        }
      }
    }

    /** The inner loop of volumemgr.go:670-702. */
    method FindCR(driveCRs: seq<DriveCR>, id: Identity) returns (found: Option<nat>)
      ensures found.Some? ==> found.value < |driveCRs| && driveCRs[found.value].disk.id == id
      ensures found.None? ==> forall j :: 0 <= j < |driveCRs| ==> driveCRs[j].disk.id != id
    {
      for index := 0 to |driveCRs|
        invariant forall j :: 0 <= j < index ==> driveCRs[j].disk.id != id
      {
        if driveCRs[index].disk.id == id { return Some(index); }
      }
      return None;
    }

    /** The first loop of updateDrivesCRs, volumemgr.go:667-735. */
    method MatchReported(report: seq<Disk>, uuids: seq<string>, system: set<string>, known: seq<DriveCR>) returns (driveCRs: seq<DriveCR>)
      requires UniqueIds(drives, nodeID) && DistinctIds(report) && |uuids| == |report| && FreshIds(uuids, drives)
      requires Tracks(known, drives, drives, nodeID)
      modifies this
      ensures Passed(old(drives), drives, report, |report|, uuids, nodeID, system, false)
      ensures Tracks(driveCRs, old(drives), drives, nodeID)
    {
      hide Passed, Tracks, HasCR, UniqueIds, DistinctIds, FreshIds;
      ghost var a := drives;
      driveCRs := known;
      NothingPassed(a, report, uuids, nodeID, system);
      for k := 0 to |report|
        invariant Passed(a, drives, report, k, uuids, nodeID, system, false) && Tracks(driveCRs, a, drives, nodeID)
      {
        var drive := report[k];
        var exist := FindCR(driveCRs, drive.id);
        if exist.Some? {
          var driveCR := driveCRs[exist.value];
          FoundIsOld(a, drives, report, k, uuids, nodeID, system, driveCRs, exist.value);
          StepFound(a, drives, report, k, uuids, nodeID, system, driveCRs, exist.value);
          if driveCR.override.Override? { drive := drive.(health := driveCR.override.health); }
          if !Equals(driveCR, drive) {
            var toUpdate := driveCR.(disk := drive);
            drives := drives[driveCR.uuid := toUpdate];
            driveCRs := driveCRs[exist.value := toUpdate];
          } else {
            assert drives[driveCR.uuid := driveCR] == drives && driveCRs[exist.value := driveCR] == driveCRs by {
              Tracking(driveCRs, a, drives, nodeID, exist.value);
            }
          }
        } else {
          StepNew(a, drives, report, k, uuids, nodeID, system, driveCRs);
          if drive.id.serial != "" {
            if !drive.online { continue; }
            var isSystem := drive.path in system;
            var driveCR := DriveCR(uuids[k], drive.(nodeId := nodeID), DriveInUse, isSystem, !isSystem, NoOverride);
            drives := drives[driveCR.uuid := driveCR];
            driveCRs := driveCRs + [driveCR];
          }
        }
      }
    }

    /** The second loop of updateDrivesCRs, volumemgr.go:742-770. */
    method MarkMissing(driveCRs: seq<DriveCR>, report: seq<Disk>)
      requires forall j :: 0 <= j < |driveCRs| ==> driveCRs[j].uuid in drives && drives[driveCRs[j].uuid] == driveCRs[j]
      requires forall i, j :: 0 <= i < j < |driveCRs| ==> driveCRs[i].uuid != driveCRs[j].uuid
      modifies this
      ensures drives == Marked(old(drives), driveCRs, |driveCRs|, report)
    {
      hide Marked;
      MarkNone(drives, driveCRs, report);
      for j := 0 to |driveCRs|
        invariant drives == Marked(old(drives), driveCRs, j, report)
      {
        var d := driveCRs[j];
        var wasDiscovered := false;
        for i := 0 to |report|
          invariant !wasDiscovered && forall k :: 0 <= k < i ==> report[k].id != d.disk.id
        {
          if d.disk.id == report[i].id {
            wasDiscovered := true;
            break;
          }
        }
        MarkNext(old(drives), driveCRs, j, report);
        if !wasDiscovered {
          var toUpdate := d.disk.(online := false);
          if d.override == NoOverride { toUpdate := toUpdate.(health := Unknown); }
          else if d.override.Override? { toUpdate := toUpdate.(health := d.override.health); }
          drives := drives[d.uuid := d.(disk := toUpdate)];
        }
      }
    }

    /** updateDrivesCRs, volumemgr.go:646-772: one pass, with successful writes. `uuids` are the UUIDs
        made up for new CRs, `system` the paths of system drives. */
    method UpdateDrivesCRs(report: seq<Disk>, uuids: seq<string>, system: set<string>)
      requires UniqueIds(drives, nodeID) && DistinctIds(report) && |uuids| == |report| && FreshIds(uuids, drives)
      modifies this
      ensures Passed(old(drives), drives, report, |report|, uuids, nodeID, system, true)
    {
      hide Passed, Tracks, UniqueIds, DistinctIds, FreshIds, Marked;
      var driveCRs := GetDriveCRs();
      var firstIteration := |driveCRs| == 0;
      ghost var a, known := drives, driveCRs;
      driveCRs := MatchReported(report, uuids, system, driveCRs);
      Finished(a, drives, report, uuids, nodeID, system, known, driveCRs);
      if firstIteration { return; }
      MarkMissing(driveCRs, report);
    }
  }

  /** The drives after the first j CRs of the list were checked: those that were not reported are offline. */
  ghost function Marked(b: map<string, DriveCR>, list: seq<DriveCR>, j: nat, report: seq<Disk>): map<string, DriveCR>
    requires j <= |list|
  {
    map u | u in b :: if Missing(b[u], report) && u in UuidsOf(list, j) then WentOffline(b[u]) else b[u]
  }

  ghost predicate Missing(c: DriveCR, report: seq<Disk>) {
    forall i :: 0 <= i < |report| ==> report[i].id != c.disk.id
  }

  function UuidsOf(list: seq<DriveCR>, j: nat): set<string>
    requires j <= |list|
  {
    set i | 0 <= i < j :: list[i].uuid
  }

  lemma MarkNone(b: map<string, DriveCR>, list: seq<DriveCR>, report: seq<Disk>)
    ensures Marked(b, list, 0, report) == b
  {
  }

  lemma UuidsAppend(list: seq<DriveCR>, c: DriveCR)
    ensures UuidsOf(list + [c], |list| + 1) == UuidsOf(list, |list|) + {c.uuid}
  {
    var r := list + [c];
    assert forall j :: 0 <= j < |list| ==> r[j].uuid == list[j].uuid;
    assert r[|list|] == c;
  }

  lemma MarkNext(b: map<string, DriveCR>, list: seq<DriveCR>, j: nat, report: seq<Disk>)
    requires j < |list| && list[j].uuid in b && b[list[j].uuid] == list[j]
    requires forall i, k :: 0 <= i < k < |list| ==> list[i].uuid != list[k].uuid
    ensures Missing(list[j], report) ==> Marked(b, list, j + 1, report) == Marked(b, list, j, report)[list[j].uuid := WentOffline(list[j])]
    ensures !Missing(list[j], report) ==> Marked(b, list, j + 1, report) == Marked(b, list, j, report)
  {
    assert UuidsOf(list, j + 1) == UuidsOf(list, j) + {list[j].uuid};
    hide Missing, WentOffline;
  }

  /** The list holds the current CRs of the node's drives as they were in `a`, and of those new in `b`. */
  ghost predicate Tracks(list: seq<DriveCR>, a: map<string, DriveCR>, b: map<string, DriveCR>, node: string) {
    && (forall j :: 0 <= j < |list| ==> Tracked(list[j], a, b, node))
    && (forall i, j :: 0 <= i < j < |list| ==> list[i].uuid != list[j].uuid)
    && (forall u :: u in b && (u in a ==> a[u].disk.nodeId == node) ==> u in UuidsOf(list, |list|))
  }

  ghost predicate Tracked(c: DriveCR, a: map<string, DriveCR>, b: map<string, DriveCR>, node: string) {
    c.uuid in b && b[c.uuid] == c && (c.uuid in a ==> a[c.uuid].disk.nodeId == node)
  }

  lemma NothingPassed(a: map<string, DriveCR>, report: seq<Disk>, uuids: seq<string>, node: string, system: set<string>)
    requires |uuids| == |report|
    ensures Passed(a, a, report, 0, uuids, node, system, false)
  {
  }

  lemma Tracking(list: seq<DriveCR>, a: map<string, DriveCR>, b: map<string, DriveCR>, node: string, i: nat)
    requires Tracks(list, a, b, node) && i < |list|
    ensures list[i].uuid in b && b[list[i].uuid] == list[i] && (list[i].uuid in a ==> a[list[i].uuid].disk.nodeId == node)
  {
    assert Tracked(list[i], a, b, node);
  }

  lemma FoundIsOld(a: map<string, DriveCR>, b: map<string, DriveCR>, report: seq<Disk>, k: nat, uuids: seq<string>,
                   node: string, system: set<string>, list: seq<DriveCR>, at: nat)
    requires k < |report| == |uuids| && UniqueIds(a, node) && DistinctIds(report) && at < |list| && list[at].disk.id == report[k].id
    requires Passed(a, b, report, k, uuids, node, system, false) && Tracks(list, a, b, node)
    ensures var c := list[at]; c.uuid in a && a[c.uuid] == c && c.uuid in b && b[c.uuid] == c && c.disk.nodeId == node
  {
    var c := list[at];
    Tracking(list, a, b, node, at);
    if c.uuid in a {
      assert Existing(a[c.uuid], c, report, k, false);
      ExistingIsSame(a[c.uuid], c, report, k, false);
      assert CRFor(a, node, report[k].id, c.uuid);
    }
    hide Tracks;
  }

  lemma StepFound(a: map<string, DriveCR>, b: map<string, DriveCR>, report: seq<Disk>, k: nat, uuids: seq<string>,
                  node: string, system: set<string>, list: seq<DriveCR>, at: nat)
    requires k < |report| == |uuids| && DistinctIds(report) && UniqueIds(a, node) && FreshIds(uuids, a)
    requires at < |list| && list[at].disk.id == report[k].id
    requires Passed(a, b, report, k, uuids, node, system, false) && Tracks(list, a, b, node)
    ensures var c := Updated(list[at], report[k]);
            && Passed(a, b[list[at].uuid := c], report, k + 1, uuids, node, system, false)
            && Tracks(list[at := c], a, b[list[at].uuid := c], node)
  {
    var u, c := list[at].uuid, Updated(list[at], report[k]);
    FoundIsOld(a, b, report, k, uuids, node, system, list, at);
    PassedOne(a, b, report, k, uuids, node, system, u);
    TracksUpdate(list, a, b, node, at, c);
  }

  lemma TracksUpdate(list: seq<DriveCR>, a: map<string, DriveCR>, b: map<string, DriveCR>, node: string, at: nat, c: DriveCR)
    requires Tracks(list, a, b, node) && at < |list| && c.uuid == list[at].uuid
    ensures Tracks(list[at := c], a, b[c.uuid := c], node)
  {
    var b', list' := b[c.uuid := c], list[at := c];
    forall j | 0 <= j < |list'| ensures Tracked(list'[j], a, b', node) {
      assert Tracked(list[j], a, b, node);
    }
    assert UuidsOf(list', |list|) == UuidsOf(list, |list|) by {
      assert forall j :: 0 <= j < |list| ==> list'[j].uuid == list[j].uuid;
    }
  }

  lemma ExistingMore(x: DriveCR, y: DriveCR, report: seq<Disk>, k: nat)
    requires k < |report| && report[k].id != x.disk.id && Existing(x, y, report, k, false)
    ensures Existing(x, y, report, k + 1, false)
  {
    forall i ensures Reports(report, k + 1, x.disk.id, i) <==> Reports(report, k, x.disk.id, i) {}
  }

  lemma ExistingNow(x: DriveCR, report: seq<Disk>, k: nat)
    requires k < |report| && report[k].id == x.disk.id && x.disk.id.serial != "" && DistinctIds(report)
    ensures Existing(x, Updated(x, report[k]), report, k + 1, false)
  {
    assert Reports(report, k + 1, x.disk.id, k);
  }

  /** One more reported drive, whose CR is u. */
  lemma PassedOne(a: map<string, DriveCR>, b: map<string, DriveCR>, report: seq<Disk>, k: nat, uuids: seq<string>,
                  node: string, system: set<string>, u: string)
    requires k < |report| == |uuids| && DistinctIds(report) && Passed(a, b, report, k, uuids, node, system, false)
    requires u in a && a[u].disk.nodeId == node && a[u].disk.id == report[k].id && u in b && b[u] == a[u]
    requires UniqueIds(a, node) && FreshIds(uuids, a)
    ensures Passed(a, b[u := Updated(a[u], report[k])], report, k + 1, uuids, node, system, false)
  {
    var b' := b[u := Updated(a[u], report[k])];
    assert forall i :: 0 <= i < |uuids| ==> uuids[i] !in a;
    CreatedStays(a, b, b', report, k, uuids, node, system);
    OnlyOneMore(a, b, report, k, uuids, node, system, u);
    hide DistinctIds, FreshIds, UniqueIds, CRFor, HasCR, Existing, Created, Creates, Updated, Distinct;
    assert b'.Keys == b.Keys;
    assert forall v :: v in a && a[v].disk.nodeId != node ==> b'[v] == a[v];
    assert forall v :: v in a && a[v].disk.nodeId == node ==> Existing(a[v], b'[v], report, k + 1, false);
    NotCreated(a, node, report[k], u);
  }

  lemma NotCreated(a: map<string, DriveCR>, node: string, d: Disk, u: string)
    requires CRFor(a, node, d.id, u)
    ensures !Creates(a, node, d)
  {
  }

  lemma OnlyOneMore(a: map<string, DriveCR>, b: map<string, DriveCR>, report: seq<Disk>, k: nat, uuids: seq<string>,
                    node: string, system: set<string>, u: string)
    requires k < |report| == |uuids| && DistinctIds(report) && Passed(a, b, report, k, uuids, node, system, false)
    requires UniqueIds(a, node) && CRFor(a, node, report[k].id, u)
    ensures forall v :: v in a && a[v].disk.nodeId == node ==>
              v in b && Existing(a[v], if v == u then Updated(a[u], report[k]) else b[v], report, k + 1, false)
  {
    hide DistinctIds, Existing, Created, Creates, Updated;
    forall v | v in a && a[v].disk.nodeId == node
      ensures v in b && Existing(a[v], if v == u then Updated(a[u], report[k]) else b[v], report, k + 1, false)
    {
      if v == u {
        ExistingNow(a[u], report, k);
      } else {
        assert a[v].disk.id == report[k].id ==> CRFor(a, node, report[k].id, v);
        ExistingMore(a[v], b[v], report, k);
      }
    }
  }

  /** CRs made earlier in the pass are not touched again. */
  lemma CreatedStays(a: map<string, DriveCR>, b: map<string, DriveCR>, b': map<string, DriveCR>, report: seq<Disk>, k: nat,
                     uuids: seq<string>, node: string, system: set<string>)
    requires k < |report| == |uuids| && Passed(a, b, report, k, uuids, node, system, false)
    requires b.Keys <= b'.Keys && forall v :: v in b && v !in a ==> b'[v] == b[v]
    requires forall i :: 0 <= i < |uuids| ==> uuids[i] !in a
    ensures forall v :: v in b && v !in a ==>
              exists i :: 0 <= i < k + 1 && Created(a, b', report[i], uuids[i], node, system) && uuids[i] == v
    ensures forall i :: 0 <= i < k && Creates(a, node, report[i]) ==> Created(a, b', report[i], uuids[i], node, system)
  {
    hide Existing, HasCR;
    forall v | v in b && v !in a
      ensures exists i :: 0 <= i < k + 1 && Created(a, b', report[i], uuids[i], node, system) && uuids[i] == v
    {
      var i :| 0 <= i < k && Created(a, b, report[i], uuids[i], node, system) && uuids[i] == v;
      assert Created(a, b', report[i], uuids[i], node, system);
    }
    forall i | 0 <= i < k && Creates(a, node, report[i]) ensures Created(a, b', report[i], uuids[i], node, system) {
      assert Created(a, b, report[i], uuids[i], node, system);
    }
  }

  lemma NotFoundIsNew(a: map<string, DriveCR>, b: map<string, DriveCR>, report: seq<Disk>, k: nat, uuids: seq<string>,
                      node: string, system: set<string>, list: seq<DriveCR>)
    requires k < |report| == |uuids| && Passed(a, b, report, k, uuids, node, system, false) && Tracks(list, a, b, node)
    requires forall j :: 0 <= j < |list| ==> list[j].disk.id != report[k].id
    ensures !HasCR(a, node, report[k].id)
  {
    forall u | u in a && a[u].disk.nodeId == node ensures a[u].disk.id != report[k].id {
      ExistingIsSame(a[u], b[u], report, k, false);
      assert u in UuidsOf(list, |list|);
      var j :| 0 <= j < |list| && list[j].uuid == u;
      Tracking(list, a, b, node, j);
    }
  }

  lemma UuidIsUnused(a: map<string, DriveCR>, b: map<string, DriveCR>, report: seq<Disk>, k: nat, uuids: seq<string>,
                     node: string, system: set<string>)
    requires k < |report| == |uuids| && Passed(a, b, report, k, uuids, node, system, false) && FreshIds(uuids, a)
    ensures uuids[k] !in b
  {
  }

  /** A report of a drive without a CR changes no existing CR. */
  lemma NewKeepsExisting(a: map<string, DriveCR>, b: map<string, DriveCR>, report: seq<Disk>, k: nat, uuids: seq<string>,
                         node: string, system: set<string>)
    requires k < |report| == |uuids| && Passed(a, b, report, k, uuids, node, system, false) && !HasCR(a, node, report[k].id)
    ensures forall v :: v in a ==> v in b
    ensures forall v :: v in a && a[v].disk.nodeId != node ==> b[v] == a[v]
    ensures forall v :: v in a && a[v].disk.nodeId == node ==> Existing(a[v], b[v], report, k + 1, false)
  {
    hide Existing;
    forall v | v in a && a[v].disk.nodeId == node ensures Existing(a[v], b[v], report, k + 1, false) {
      assert a[v].disk.id == report[k].id ==> CRFor(a, node, report[k].id, v);
      ExistingMore(a[v], b[v], report, k);
    }
  }

  lemma StepSkip(a: map<string, DriveCR>, b: map<string, DriveCR>, report: seq<Disk>, k: nat, uuids: seq<string>,
                 node: string, system: set<string>)
    requires k < |report| == |uuids| && FreshIds(uuids, a)
    requires Passed(a, b, report, k, uuids, node, system, false) && !HasCR(a, node, report[k].id) && !Creatable(report[k])
    ensures Passed(a, b, report, k + 1, uuids, node, system, false)
  {
    NewKeepsExisting(a, b, report, k, uuids, node, system);
    CreatedStays(a, b, b, report, k, uuids, node, system);
    hide Existing, HasCR, Created, FreshIds;
  }

  lemma StepCreate(a: map<string, DriveCR>, b: map<string, DriveCR>, report: seq<Disk>, k: nat, uuids: seq<string>,
                   node: string, system: set<string>)
    requires k < |report| == |uuids| && FreshIds(uuids, a) && uuids[k] !in b
    requires Passed(a, b, report, k, uuids, node, system, false) && !HasCR(a, node, report[k].id) && Creatable(report[k])
    ensures Passed(a, b[uuids[k] := NewCR(uuids[k], report[k], node, system)], report, k + 1, uuids, node, system, false)
  {
    var b' := b[uuids[k] := NewCR(uuids[k], report[k], node, system)];
    NewKeepsExisting(a, b, report, k, uuids, node, system);
    CreatedStays(a, b, b', report, k, uuids, node, system);
    assert Created(a, b', report[k], uuids[k], node, system);
    hide Existing, HasCR, Created, FreshIds, NewCR;
  }

  lemma StepNew(a: map<string, DriveCR>, b: map<string, DriveCR>, report: seq<Disk>, k: nat, uuids: seq<string>,
                node: string, system: set<string>, list: seq<DriveCR>)
    requires k < |report| == |uuids| && FreshIds(uuids, a)
    requires Passed(a, b, report, k, uuids, node, system, false) && Tracks(list, a, b, node)
    requires forall j :: 0 <= j < |list| ==> list[j].disk.id != report[k].id
    ensures !Creatable(report[k]) ==> Passed(a, b, report, k + 1, uuids, node, system, false)
    ensures Creatable(report[k]) ==>
              var c := NewCR(uuids[k], report[k], node, system);
              Passed(a, b[uuids[k] := c], report, k + 1, uuids, node, system, false) && Tracks(list + [c], a, b[uuids[k] := c], node)
  {
    hide Passed, Tracks, HasCR;
    NotFoundIsNew(a, b, report, k, uuids, node, system, list);
    UuidIsUnused(a, b, report, k, uuids, node, system);
    if Creatable(report[k]) {
      StepCreate(a, b, report, k, uuids, node, system);
      TracksAppend(list, a, b, node, NewCR(uuids[k], report[k], node, system));
    } else {
      StepSkip(a, b, report, k, uuids, node, system);
    }
  }

  lemma TracksAppend(list: seq<DriveCR>, a: map<string, DriveCR>, b: map<string, DriveCR>, node: string, c: DriveCR)
    requires Tracks(list, a, b, node) && c.uuid !in b && c.uuid !in a
    ensures Tracks(list + [c], a, b[c.uuid := c], node)
  {
    var b', list' := b[c.uuid := c], list + [c];
    forall j | 0 <= j < |list'| ensures Tracked(list'[j], a, b', node) {
      if j < |list| { assert Tracked(list[j], a, b, node); }
    }
    forall i, j | 0 <= i < j < |list'| ensures list'[i].uuid != list'[j].uuid {
      assert Tracked(list[i], a, b, node);
    }
    UuidsAppend(list, c);
  }

  /** After the second loop the pass is complete; without CRs at the start it was complete before. */
  lemma Finished(a: map<string, DriveCR>, b: map<string, DriveCR>, report: seq<Disk>, uuids: seq<string>,
                 node: string, system: set<string>, known: seq<DriveCR>, list: seq<DriveCR>)
    requires |uuids| == |report| && FreshIds(uuids, a) && Passed(a, b, report, |report|, uuids, node, system, false)
    requires Tracks(known, a, a, node) && Tracks(list, a, b, node)
    ensures known == [] ==> Passed(a, b, report, |report|, uuids, node, system, true)
    ensures Passed(a, Marked(b, list, |list|, report), report, |report|, uuids, node, system, true)
    ensures forall j :: 0 <= j < |list| ==> list[j].uuid in b && b[list[j].uuid] == list[j]
    ensures forall i, j :: 0 <= i < j < |list| ==> list[i].uuid != list[j].uuid
  {
    forall j | 0 <= j < |list| ensures list[j].uuid in b && b[list[j].uuid] == list[j] { Tracking(list, a, b, node, j); }
    FinishedMarking(a, b, report, uuids, node, system, list);
    hide Passed, Marked, FreshIds;
    if known == [] { FinishedAtOnce(a, b, report, uuids, node, system, known); }
  }

  lemma FinishedAtOnce(a: map<string, DriveCR>, b: map<string, DriveCR>, report: seq<Disk>, uuids: seq<string>,
                       node: string, system: set<string>, known: seq<DriveCR>)
    requires |uuids| == |report| && Passed(a, b, report, |report|, uuids, node, system, false)
    requires Tracks(known, a, a, node) && known == []
    ensures Passed(a, b, report, |report|, uuids, node, system, true)
  {
    assert UuidsOf(known, |known|) == {};
    assert forall u :: u in a ==> a[u].disk.nodeId != node;
    hide Existing, Created, Tracks;
  }

  lemma MarkedExisting(x: DriveCR, y: DriveCR, report: seq<Disk>)
    requires Existing(x, y, report, |report|, false)
    ensures Existing(x, if Missing(y, report) then WentOffline(y) else y, report, |report|, true)
  {
    if i :| Reports(report, |report|, x.disk.id, i) {
      assert y == Updated(x, report[i]);
      assert !Missing(y, report);
    } else {
      forall i | 0 <= i < |report| ensures report[i].id != y.disk.id { assert !Reports(report, |report|, x.disk.id, i); }
    }
  }

  lemma FinishedMarking(a: map<string, DriveCR>, b: map<string, DriveCR>, report: seq<Disk>, uuids: seq<string>,
                        node: string, system: set<string>, list: seq<DriveCR>)
    requires |uuids| == |report| && FreshIds(uuids, a) && Passed(a, b, report, |report|, uuids, node, system, false)
    requires Tracks(list, a, b, node)
    ensures Passed(a, Marked(b, list, |list|, report), report, |report|, uuids, node, system, true)
  {
    var c := Marked(b, list, |list|, report);
    ListedUuids(list, a, b, node);
    MarkedOld(a, b, report, uuids, node, system, list);
    MarkedNew(a, b, report, uuids, node, system, list);
    hide Tracks, FreshIds, UuidsOf, Missing, Existing, Created, WentOffline;
  }

  lemma MarkedOld(a: map<string, DriveCR>, b: map<string, DriveCR>, report: seq<Disk>, uuids: seq<string>,
                  node: string, system: set<string>, list: seq<DriveCR>)
    requires |uuids| == |report| && Passed(a, b, report, |report|, uuids, node, system, false) && Tracks(list, a, b, node)
    ensures var c := Marked(b, list, |list|, report);
            && (forall u :: u in a ==> u in c)
            && (forall u :: u in a && a[u].disk.nodeId == node ==> Existing(a[u], c[u], report, |report|, true))
            && (forall u :: u in a && a[u].disk.nodeId != node ==> c[u] == a[u])
  {
    var c := Marked(b, list, |list|, report);
    ListedUuids(list, a, b, node);
    hide Tracks, UuidsOf, Missing, Existing, WentOffline;
    forall u | u in a && a[u].disk.nodeId == node ensures Existing(a[u], c[u], report, |report|, true) {
      MarkedExisting(a[u], b[u], report);
    }
  }

  lemma MarkedNew(a: map<string, DriveCR>, b: map<string, DriveCR>, report: seq<Disk>, uuids: seq<string>,
                  node: string, system: set<string>, list: seq<DriveCR>)
    requires |uuids| == |report| && Passed(a, b, report, |report|, uuids, node, system, false)
    ensures var c := Marked(b, list, |list|, report);
            && (forall i :: 0 <= i < |report| && Creates(a, node, report[i]) ==> Created(a, c, report[i], uuids[i], node, system))
            && forall u :: u in c && u !in a ==>
                 exists i :: 0 <= i < |report| && Created(a, c, report[i], uuids[i], node, system) && uuids[i] == u
  {
    var c := Marked(b, list, |list|, report);
    hide Missing, HasCR, Existing, WentOffline, UuidsOf;
    forall i | 0 <= i < |report| && Creates(a, node, report[i]) ensures Created(a, c, report[i], uuids[i], node, system) {
      NewIsReported(a, b, report, uuids, node, system, i);
    }
    forall u | u in c && u !in a
      ensures exists i :: 0 <= i < |report| && Created(a, c, report[i], uuids[i], node, system) && uuids[i] == u
    {
      var i :| 0 <= i < |report| && Created(a, b, report[i], uuids[i], node, system) && uuids[i] == u;
      assert Created(a, c, report[i], uuids[i], node, system);
    }
  }

  lemma NewIsReported(a: map<string, DriveCR>, b: map<string, DriveCR>, report: seq<Disk>, uuids: seq<string>,
                      node: string, system: set<string>, i: nat)
    requires |uuids| == |report| && i < |report| && Creates(a, node, report[i])
    requires Passed(a, b, report, |report|, uuids, node, system, false)
    ensures Created(a, b, report[i], uuids[i], node, system) && !Missing(b[uuids[i]], report)
  {
    assert Created(a, b, report[i], uuids[i], node, system);
  }

  lemma ListedUuids(list: seq<DriveCR>, a: map<string, DriveCR>, b: map<string, DriveCR>, node: string)
    requires Tracks(list, a, b, node)
    ensures forall u :: u in UuidsOf(list, |list|) ==> u in b && (u in a ==> a[u].disk.nodeId == node)
    ensures forall u :: u in b && (u in a ==> a[u].disk.nodeId == node) ==> u in UuidsOf(list, |list|)
  {
    forall j | 0 <= j < |list| ensures list[j].uuid in b && (list[j].uuid in a ==> a[list[j].uuid].disk.nodeId == node) {
      assert Tracked(list[j], a, b, node);
    }
  }
}
