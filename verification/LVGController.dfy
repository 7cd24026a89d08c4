// pkg/crcontrollers/lvg/lvgcontroller.go: the node side of an LVG. Reading drives, LVM commands and the check for
// the system drive are outcomes chosen by the environment.

module LVGControllers {
  import opened Types
  import opened Stores
  import opened CRHelper
  import L = Ledger

  /** The drives of an LVG that became physical volumes. */
  function Usable(drives: seq<string>, found: set<string>): (r: seq<string>)
    ensures forall d :: d in r <==> d in drives && d in found
    ensures (forall d :: d in drives ==> d in found) ==> r == drives
  {
    if drives == [] then []
    else
      var last := drives[|drives| - 1];
      assert drives == drives[..|drives| - 1] + [last];
      Usable(drives[..|drives| - 1], found) + (if last in found then [last] else [])
  }

  /** The LVG of a single drive, as every conversion makes it, is built or loses its drive. */
  lemma OneDriveIsBuilt(lvg: LVG, found: set<string>, grouped: bool)
    requires |lvg.locations| == 1
    ensures var usable := Usable(lvg.locations, found);
            lvg.(status := if usable != [] && grouped then LVGCreated else LVGFailed, locations := usable)
              == Built(lvg, lvg.locations[0] in found, grouped)
  {
    assert lvg.locations[..0] == [];
    assert Usable([], found) == [];
    assert lvg.locations == [lvg.locations[0]];
  }

  predicate Keeps(v: Volume, l: string, leaving: set<string>) {
    v.location == l && v.id !in leaving
  }

  ghost predicate Occupied(volumes: map<string, Volume>, l: string, leaving: set<string>) {
    exists i :: i in volumes && Keeps(volumes[i], l, leaving)
  }

  class Controller {
    const client: Cluster

    constructor (client: Cluster)
      ensures this.client == client
    {
      this.client := client;
    }

    /** createSystemLVG, lvgcontroller.go:243-285. */
    method CreateSystemLVG(lvg: LVG, found: set<string>, grouped: bool) returns (ok: bool, locations: seq<string>)
      ensures locations == Usable(lvg.locations, found) && (ok <==> grouped && exists d :: d in lvg.locations && d in found)
    {
      locations := [];
      for i := 0 to |lvg.locations|
        invariant locations == Usable(lvg.locations[..i], found)
      {
        assert lvg.locations[..i + 1][..i] == lvg.locations[..i];
        if lvg.locations[i] !in found { continue; }
        locations := locations + [lvg.locations[i]];
      }
      assert lvg.locations[..|lvg.locations|] == lvg.locations;
      if |locations| == 0 { return false, locations; }
      assert locations[0] in locations;
      return grouped, locations;
    }

    /** handlerLVGCreation, lvgcontroller.go:152-170. */
    method HandlerLVGCreation(lvg: LVG, found: set<string>, grouped: bool)
      modifies client`lvgs
      ensures client.lvgs == old(client.lvgs)[lvg.name :=
                lvg.(status := if grouped && (exists d :: d in lvg.locations && d in found) then LVGCreated else LVGFailed,
                     locations := Usable(lvg.locations, found))]
    {
      var newStatus := LVGCreated;
      var ok, locations := CreateSystemLVG(lvg, found, grouped);
      if !ok { newStatus := LVGFailed; }
      var updated := lvg.(status := newStatus);
      updated := updated.(locations := locations);
      client.lvgs := client.lvgs[lvg.name := updated];
    }

    /** The loop of lvgcontroller.go:190-195. `leaving` are the volumes whose own deletion is requested. */
    method StillUsed(name: string, leaving: set<string>) returns (used: bool)
      ensures used <==> Occupied(client.volumes, name, leaving)
    {
      hide Lists;
      var list := ReadList(client.volumes);
      for i := 0 to |list|
        invariant forall j :: 0 <= j < i ==> !Keeps(list[j], name, leaving)
      {
        if list[i].location == name && list[i].id !in leaving {
          ghost var k := ListedElement(list, client.volumes, i);
          return true;
        }
      }
      ListedAll(list, client.volumes);
      forall k | k in client.volumes ensures !Keeps(client.volumes[k], name, leaving) { assert client.volumes[k] in list; }
      return false;
    }

    /** handleLVGRemoving, lvgcontroller.go:173-208. `cleaned` says that the LVM artifacts are gone, or that the drive is a
        system drive. */
    method HandleLVGRemoving(lvg: LVG, leaving: set<string>, cleaned: bool) returns (removed: bool)
      modifies client`lvgs
      ensures removed <==>
                cleaned && !exists i :: i in client.volumes && client.volumes[i].location == lvg.name && client.volumes[i].id !in leaving
      ensures client.lvgs == if removed then old(client.lvgs) - {lvg.name} else old(client.lvgs)
    {
      var used := StillUsed(lvg.name, leaving);
      if used || !cleaned { return false; }
      client.lvgs := client.lvgs - {lvg.name};
      return true;
    }

    /** Reconcile, lvgcontroller.go:84-119, for an LVG of one drive that carries the finalizer: what it does is an event
        of the byte accounts, or nothing. */
    method Reconcile(name: string, found: set<string>, grouped: bool, cleaned: bool)
      requires Keyed(client.State())
      requires name in client.lvgs && client.lvgs[name].deleting ==> client.lvgs[name].locations != []
      requires name in client.lvgs && client.lvgs[name].status.LVGCreating? ==> |client.lvgs[name].locations| == 1
      modifies client`lvgs
      ensures var s := old(client.State());
              client.State() ==
                if name !in s.lvgs then s
                else if s.lvgs[name].deleting then
                  (if cleaned && L.Enabled(s, L.RemoveLVG(name)) then L.Apply(s, L.RemoveLVG(name)) else s)
                else if s.lvgs[name].status.LVGCreating? then
                  L.Apply(s, L.LVGReady(name, s.lvgs[name].locations[0] in found, grouped))
                else s
    {
      if name !in client.lvgs { return; }
      var lvg := client.lvgs[name];
      if lvg.deleting {
        var removed := HandleLVGRemoving(lvg, {}, cleaned);
        return;
      }
      if lvg.status.LVGCreating? {
        OneDriveIsBuilt(lvg, found, grouped);
        HandlerLVGCreation(lvg, found, grouped);
      }
    }
  }
}
