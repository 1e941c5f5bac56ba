/** ManagedReliableZigbeeMqttMonitor as the program has it: an object that updates its
    fields and saves through its role store.  Every method is proved against the step
    function of ZigbeeRoles.  false stands for an exception; saves says which of the saves
    of the operation succeed. */
module ZigbeeObjects {
  import opened Common
  import opened ZigbeeRoleStore
  import opened ZigbeeRoles
  import ZigbeeRuns

  /** The invariant of every operation boundary, over an inventory of proper devices. */
  ghost predicate Sane(w: World) {
    Sound(w) && GoodInventory(w.inventory)
  }

  lemma BootKeeps(base: string, inventory: seq<Device>, file: File)
    ensures Bootable(file) ==>
              Boot(base, inventory, file).Some? && Sound(Boot(base, inventory, file).value)
  {
    hide Bootable, Boot, Sound;
    if Bootable(file) { BootIsSound(base, inventory, file); }
  }

  lemma CallIsSane(w: World, request: ZigbeeRuns.Request, bridge: bool, saves: Saves)
    ensures Sane(w) ==> (Sane(ZigbeeRuns.Call(w, request, bridge, saves).0) <==>
                         !ZigbeeRuns.UnluckyCall(w, request, bridge, saves))
  {
    hide Sound, GoodInventory, ZigbeeRuns.Call, ZigbeeRuns.UnluckyCall;
    if Sane(w) { ZigbeeRuns.CallMeaning(w, request, bridge, saves); }
  }

  lemma SyncIsSane(w: World, inventory: seq<Device>, saves: Saves)
    ensures Sane(w) && GoodInventory(inventory) ==> Sane(Sync(w, inventory, saves).0)
  {
    hide Sound, GoodInventory, Sync;
    if Sane(w) && GoodInventory(inventory) { SyncMeaning(w, inventory, saves); }
  }

  class ManagedMonitor {
    const base: string
    const store: RoleStore
    var inventory: seq<Device>
    var configs: Configs
    var sensors: map<Role, Sensor>
    var topics: map<string, Role>
    var availability: map<string, Role>
    var other: seq<Entry>
    /** Whether the latest save of each kind succeeded. */
    ghost var configsSaved: bool
    ghost var otherSaved: bool

    ghost function View(): World
      reads this, store
    {
      World(base, inventory, configs, sensors, topics, availability, other, store.file, store.journal,
            configsSaved, otherSaved)
    }

    /** From the registry that the store loads at the start. */
    constructor (base: string, inventory: seq<Device>, store: RoleStore, bundle: File)
      requires Loaded(store.file) == Some(bundle) && Constructible(RuntimeConfigs(bundle)) && store.journal == []
      ensures this.store == store && Some(View()) == Boot(base, inventory, store.file)
      ensures Bootable(store.file) ==> Sound(View())
    {
      BootKeeps(base, inventory, store.file);
      this.base, this.store, this.inventory := base, store, inventory;
      configs, other := RuntimeConfigs(bundle), bundle.other;
      configsSaved, otherSaved := true, true;
      sensors := SensorsOf(base, RuntimeConfigs(bundle));
      topics := TopicsOf(SensorsOf(base, RuntimeConfigs(bundle)));
      availability := AvailabilityOf(SensorsOf(base, RuntimeConfigs(bundle)));
    }

    /** _apply_role_configs: memory first, then the file. */
    method ApplyRoleConfigs(next: Configs, write: bool) returns (ok: bool)
      modifies this, store
      ensures (View(), ok) == Apply(old(View()), next, write)
    {
      hide SavedConfigs, SensorOf, Strip;
      if Strip(next.supply.name) == "" || Strip(next.extract.name) == "" || next.supply.name == next.extract.name {
        return false;
      }
      configs := next;
      sensors := SensorsOf(base, next);
      topics := TopicsOf(sensors);
      availability := AvailabilityOf(sensors);
      ok := store.SaveConfigs(next, write);
      configsSaved := ok;
    }

    method SaveOtherRoles(records: seq<Entry>, write: bool) returns (ok: bool)
      modifies this, store
      ensures (View(), ok) == SaveOther(old(View()), records, write)
    {
      hide SavedOther;
      other := records;
      ok := store.SaveOtherRecords(other, write);
      otherSaved := ok;
    }

    /** The first device in the inventory with this address or name. */
    method ResolveDevice(id: string) returns (d: Option<Device>)
      ensures d == Resolve(View(), id)
    {
      hide Strip;
      var needle := Strip(id);
      if needle == "" {
        return None;
      }
      var i := 0;
      while i < |inventory|
        invariant 0 <= i <= |inventory|
        invariant FirstMatch(inventory, needle) == FirstMatch(inventory[i..], needle)
      {
        assert inventory[i..][1..] == inventory[i + 1..];
        if inventory[i].ieee == needle || inventory[i].name == needle {
          return Some(inventory[i]);
        }
        i := i + 1;
      }
      return None;
    }

    /** What assign_role reads before the request to the bridge. */
    method ReadRegistry(ieee: string) returns (seen: Snapshot)
      ensures seen == SnapshotOf(View(), ieee)
    {
      hide Assigns;
      seen := Snapshot(configs, CurrentRole(configs, ieee), HasKey(other, ieee));
    }

    method ReleaseRole(seen: Snapshot, write: bool) returns (ok: bool)
      modifies this, store
      ensures (View(), ok) == Released(old(View()), seen, write)
    {
      hide Apply;
      match seen.current {
        case None => ok := true;
        case Some(role) => ok := ApplyRoleConfigs(seen.configs.With(role, Unassigned(role)), write);
      }
    }

    method AssignRole(id: string, goal: Goal, bridge: bool, saves: Saves) returns (ok: bool)
      modifies this, store
      ensures (View(), ok) == ZigbeeRoles.AssignRole(old(View()), id, goal, bridge, saves)
      ensures Sane(old(View())) ==>
                (Sane(View()) <==>
                 !ZigbeeRuns.UnluckyCall(old(View()), ZigbeeRuns.ToAssign(id, goal), bridge, saves))
    {
      CallIsSane(View(), ZigbeeRuns.ToAssign(id, goal), bridge, saves);
      hide Sane, ZigbeeRuns.UnluckyCall, AssignAfterWait, Resolve, SnapshotOf;
      var found := ResolveDevice(id);
      match found {
        case None => ok := false;
        case Some(d) =>
          if d.coordinator || goal.Unsupported? {
            return false;
          }
          var seen := ReadRegistry(d.ieee);
          ok := FinishAssignment(d, goal, seen, bridge, saves);
      }
    }

    /** The part of assign_role after the request to the bridge: it writes what the
        snapshot, which may be old by now, makes of the configurations. */
    method FinishAssignment(d: Device, goal: Goal, seen: Snapshot, bridge: bool, saves: Saves) returns (ok: bool)
      modifies this, store
      ensures (View(), ok) == AssignAfterWait(old(View()), d, goal, seen, bridge, saves)
    {
      hide Apply, SaveOther, Released, AssignSystem;
      if !goal.NoRole? && !bridge {
        return false;
      }
      match goal {
        case Unsupported => ok := false;
        case NoRole =>
          ok := ReleaseRole(seen, saves.configs);
          if ok && seen.listed {
            ok := SaveOtherRoles(Pop(other, d.ieee), saves.other);
          }
        case Multi =>
          ok := ReleaseRole(seen, saves.configs);
          if ok {
            ok := SaveOtherRoles(Put(other, d.ieee, d.name), saves.other);
          }
        case System(role) => ok := AssignSystemRole(d, role, seen, saves);
      }
    }

    method AssignSystemRole(d: Device, role: Role, seen: Snapshot, saves: Saves) returns (ok: bool)
      modifies this, store
      ensures (View(), ok) == AssignSystem(old(View()), d, role, seen, saves)
    {
      hide Apply, SaveOther, IsAssigned;
      var next := seen.configs;
      var holder := next.Get(role);
      if IsAssigned(holder) && holder.ieee != Some(d.ieee) {
        return false;
      }
      ok := true;
      if seen.listed {
        ok := SaveOtherRoles(Pop(other, d.ieee), saves.other);
      }
      if ok {
        match seen.current {
          case None =>
          case Some(held) =>
            if held != role {
              next := next.With(held, Unassigned(held));
            }
        }
        ok := ApplyRoleConfigs(next.With(role, Config(d.name, Some(d.ieee))), saves.configs);
      }
    }

    method RenameDevice(id: string, name: string, bridge: bool, saves: Saves) returns (ok: bool)
      modifies this, store
      ensures (View(), ok) == ZigbeeRoles.RenameDevice(old(View()), id, name, bridge, saves)
      ensures Sane(old(View())) ==> Sane(View())
    {
      CallIsSane(View(), ZigbeeRuns.ToRename(id, name), bridge, saves);
      NeverUnlucky(View(), id, name, bridge, saves);
      hide Sane, ZigbeeRuns.UnluckyCall, Resolve, Strip, NameAllowed, RenameAfterWait;
      var found := ResolveDevice(id);
      match found {
        case None => ok := false;
        case Some(d) =>
          var newName := Strip(name);
          if d.coordinator || !NameAllowed(newName) {
            return false;
          }
          if newName == d.name {
            return true;
          }
          if NameTaken(inventory, newName, d.ieee) {
            return false;
          }
          ok := FinishRename(d.ieee, newName, bridge, saves);
      }
    }

    /** The part of rename_device after the request; it reads the registry again. */
    method FinishRename(ieee: string, newName: string, bridge: bool, saves: Saves) returns (ok: bool)
      modifies this, store
      ensures (View(), ok) == RenameAfterWait(old(View()), ieee, newName, bridge, saves)
    {
      hide Apply, SaveOther, HasKey, Assigns;
      if !bridge {
        return false;
      }
      ok := true;
      if CurrentRole(configs, ieee).Some? {
        var next := Configs(Renamed(configs.supply, ieee, newName), Renamed(configs.extract, ieee, newName));
        ok := ApplyRoleConfigs(next, saves.configs);
      }
      if ok && HasKey(other, ieee) {
        ok := SaveOtherRoles(Put(other, ieee, newName), saves.other);
      }
    }

    method RemoveDevice(id: string, bridge: bool, saves: Saves) returns (ok: bool)
      modifies this, store
      ensures (View(), ok) == ZigbeeRoles.RemoveDevice(old(View()), id, bridge, saves)
      ensures Sane(old(View())) ==>
                (Sane(View()) <==> !ZigbeeRuns.UnluckyCall(old(View()), ZigbeeRuns.ToRemove(id), bridge, saves))
    {
      CallIsSane(View(), ZigbeeRuns.ToRemove(id), bridge, saves);
      hide Sane, ZigbeeRuns.UnluckyCall, Resolve, Strip, NamesCoordinator, RemoveAfterWait;
      var found := ResolveDevice(id);
      match found {
        case None => ok := false;
        case Some(d) =>
          if NamesCoordinator(inventory, Strip(d.ieee)) {
            return false;
          }
          ok := FinishRemoval(d.ieee, bridge, saves);
      }
    }

    /** The part of remove_device after the request; it reads the registry only then. */
    method FinishRemoval(ieee: string, bridge: bool, saves: Saves) returns (ok: bool)
      modifies this, store
      ensures (View(), ok) == RemoveAfterWait(old(View()), ieee, bridge, saves)
    {
      hide Apply, SaveOther, HasKey, Assigns;
      if !bridge {
        return false;
      }
      ok := true;
      if CurrentRole(configs, ieee).Some? {
        var next := Configs(Cleared(Supply, configs.supply, ieee), Cleared(Extract, configs.extract, ieee));
        ok := ApplyRoleConfigs(next, saves.configs);
      }
      if ok && HasKey(other, ieee) {
        ok := SaveOtherRoles(Pop(other, ieee), saves.other);
      }
    }

    /** The loop over the other devices; it saves only when a name changed. */
    method SyncOther(write: bool) returns (ok: bool)
      modifies this, store
      ensures var synced := SyncedEntries(old(inventory), old(other));
              (View(), ok) == if synced == old(other) then (old(View()), true)
                              else SaveOther(old(View()), synced, write)
    {
      hide SaveOther, SyncedName;
      var records: seq<Entry> := [];
      var changed := false;
      var i := 0;
      while i < |other|
        invariant 0 <= i <= |other|
        invariant records == SyncedEntries(inventory, other[..i])
        invariant changed <==> records != other[..i]
        invariant View() == old(View())
      {
        var name := SyncedName(inventory, other[i].ieee, other[i].name);
        changed := changed || name != other[i].name;
        records := records + [Entry(other[i].ieee, name)];
        assert other[..i + 1] == other[..i] + [other[i]];
        i := i + 1;
      }
      assert other[..i] == other;
      ok := true;
      if changed {
        ok := SaveOtherRoles(records, write);
      }
    }

    method HandleInventory(devices: seq<Device>, saves: Saves) returns (ok: bool)
      modifies this, store
      ensures (View(), ok) == Sync(old(View()), devices, saves)
      ensures Sane(old(View())) && GoodInventory(devices) ==> Sane(View())
    {
      SyncIsSane(View(), devices, saves);
      hide Sane, GoodInventory, SaveOther, SyncedConfigs, SyncedEntries;
      inventory := devices;
      SyncKeepsInventory(View(), devices, saves.configs);
      ok := SyncConfigs(saves.configs);
      if ok {
        ok := SyncOther(saves.other);
      }
    }

    /** The loop over the two configurations. */
    method SyncConfigs(write: bool) returns (ok: bool)
      modifies this, store
      ensures (View(), ok) == SyncedConfigs(old(View()), old(inventory), write)
    {
      hide Apply, SyncedConfig;
      var next := Configs(SyncedConfig(inventory, configs.supply), SyncedConfig(inventory, configs.extract));
      ok := true;
      if next != configs {
        ok := ApplyRoleConfigs(next, write);
      }
    }
  }

  lemma SyncKeepsInventory(w: World, inventory: seq<Device>, write: bool)
    ensures SyncedConfigs(w, inventory, write).0.inventory == w.inventory
  {
  }

  lemma NeverUnlucky(w: World, id: string, name: string, bridge: bool, saves: Saves)
    ensures !ZigbeeRuns.UnluckyCall(w, ZigbeeRuns.ToRename(id, name), bridge, saves)
  {
    hide Resolve, Strip, NameAllowed, NameTaken;
  }
}
