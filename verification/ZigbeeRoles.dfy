/** Role management of src/ventilation_core/infrastructure/zigbee_managed_monitor.py:
    supply and extract have one device each, "other" has any number.  The registry is
    kept in memory and on disk, with several saves inside one operation.  Memory changes
    first; a save that raises ends the operation and leaves memory as it is. */
module ZigbeeRoles {
  import opened Common
  import opened ZigbeeRoleStore

  datatype Device = Device(ieee: string, name: string, coordinator: bool)

  /** The topic state of one system role; measurements are left out. */
  datatype Sensor = Sensor(name: string, ieee: Option<string>, topic: string)

  /** The registry in memory, the file, every file that was ever written, and whether the
      latest save of the configurations and of the other records succeeded. */
  datatype World = World(
    base: string, inventory: seq<Device>, configs: Configs, sensors: map<Role, Sensor>,
    topics: map<string, Role>, availability: map<string, Role>, other: seq<Entry>,
    file: File, journal: seq<File>, configsSaved: bool, otherSaved: bool)

  /** An operation makes at most one save of each kind; each may raise. */
  datatype Saves = Saves(configs: bool, other: bool)

  const SAVED := Saves(true, true)

  predicate IsAssigned(c: Config) {
    c.ieee.Some? && c.ieee.value != "" && c.name != "" && !IsReserved(c.name)
  }

  /** The role that a configuration gives to the device. */
  predicate Assigns(c: Config, ieee: string) {
    IsAssigned(c) && c.ieee == Some(ieee)
  }

  datatype Goal = System(role: Role) | Multi | NoRole | Unsupported

  function RoleOf(w: World, ieee: string): Goal {
    if Assigns(w.configs.supply, ieee) then System(Supply)
    else if Assigns(w.configs.extract, ieee) then System(Extract)
    else if HasKey(w.other, ieee) then Multi
    else NoRole
  }

  // ----- the dictionary of other devices

  function Put(d: seq<Entry>, ieee: string, name: string): seq<Entry> {
    if d == [] then [Entry(ieee, name)]
    else if d[0].ieee == ieee then [Entry(ieee, name)] + d[1..]
    else [d[0]] + Put(d[1..], ieee, name)
  }

  function Pop(d: seq<Entry>, ieee: string): seq<Entry> {
    if d == [] then []
    else if d[0].ieee == ieee then d[1..]
    else [d[0]] + Pop(d[1..], ieee)
  }

  /** The name kept for an address, empty when there is none. */
  function Lookup(d: seq<Entry>, ieee: string): string {
    if d == [] then "" else if d[0].ieee == ieee then d[0].name else Lookup(d[1..], ieee)
  }

  /** The name under which a device is registered. */
  function NameOf(w: World, ieee: string): string {
    if Assigns(w.configs.supply, ieee) then w.configs.supply.name
    else if Assigns(w.configs.extract, ieee) then w.configs.extract.name
    else Lookup(w.other, ieee)
  }

  // ----- topics

  function Topic(base: string, name: string): string {
    base + "/" + name
  }

  function AvailabilityTopic(topic: string): string {
    topic + "/availability"
  }

  function SensorOf(base: string, c: Config): Sensor {
    Sensor(c.name, if IsAssigned(c) then c.ieee else None, Topic(base, c.name))
  }

  function SensorsOf(base: string, configs: Configs): map<Role, Sensor> {
    map[Supply := SensorOf(base, configs.supply), Extract := SensorOf(base, configs.extract)]
  }

  /** {device.topic: role for role, device in self._devices.items()} */
  function TopicsOf(sensors: map<Role, Sensor>): map<string, Role>
    requires Supply in sensors && Extract in sensors
  {
    map[sensors[Supply].topic := Supply][sensors[Extract].topic := Extract]
  }

  function AvailabilityOf(sensors: map<Role, Sensor>): map<string, Role>
    requires Supply in sensors && Extract in sensors
  {
    map[AvailabilityTopic(sensors[Supply].topic) := Supply][AvailabilityTopic(sensors[Extract].topic) := Extract]
  }

  // ----- the two kinds of file write

  /** What the constructors of the configuration accept. */
  predicate Constructible(configs: Configs) {
    && Strip(configs.supply.name) != "" && Strip(configs.extract.name) != ""
    && configs.supply.name != configs.extract.name
  }

  function InMemory(w: World, configs: Configs): World {
    var sensors := SensorsOf(w.base, configs);
    w.(configs := configs, sensors := sensors, topics := TopicsOf(sensors), availability := AvailabilityOf(sensors))
  }

  function OnDisk(w: World, file: Option<File>, write: bool): (World, bool) {
    match file
    case None => (w, false)
    case Some(f) => if write then (w.(file := f, journal := w.journal + [f]), true) else (w, false)
  }

  /** _apply_role_configs; false stands for an exception. */
  function Apply(w: World, configs: Configs, write: bool): (World, bool) {
    if !Constructible(configs) then (w, false)
    else
      var (after, ok) := OnDisk(InMemory(w, configs), SavedConfigs(w.file, configs), write);
      (after.(configsSaved := ok), ok)
  }

  function SaveOther(w: World, other: seq<Entry>, write: bool): (World, bool) {
    var (after, ok) := OnDisk(w.(other := other), SavedOther(w.file, other), write);
    (after.(otherSaved := ok), ok)
  }

  // ----- the operations

  function FirstMatch(inventory: seq<Device>, needle: string): Option<Device> {
    if inventory == [] then None
    else if inventory[0].ieee == needle || inventory[0].name == needle then Some(inventory[0])
    else FirstMatch(inventory[1..], needle)
  }

  function Resolve(w: World, id: string): Option<Device> {
    if Strip(id) == "" then None else FirstMatch(w.inventory, Strip(id))
  }

  function CurrentRole(configs: Configs, ieee: string): Option<Role> {
    if Assigns(configs.supply, ieee) then Some(Supply)
    else if Assigns(configs.extract, ieee) then Some(Extract)
    else None
  }

  /** What assign_role reads of the registry before it waits for the bridge. */
  datatype Snapshot = Snapshot(configs: Configs, current: Option<Role>, listed: bool)

  function SnapshotOf(w: World, ieee: string): Snapshot {
    Snapshot(w.configs, CurrentRole(w.configs, ieee), HasKey(w.other, ieee))
  }

  /** Takes the system role away, if the snapshot has one. */
  function Released(w: World, seen: Snapshot, write: bool): (World, bool) {
    if seen.current.None? then (w, true)
    else Apply(w, seen.configs.With(seen.current.value, Unassigned(seen.current.value)), write)
  }

  function AssignRole(w: World, id: string, goal: Goal, bridge: bool, saves: Saves): (World, bool) {
    match Resolve(w, id)
    case None => (w, false)
    case Some(d) =>
      if d.coordinator || goal.Unsupported? then (w, false)
      else AssignAfterWait(w, d, goal, SnapshotOf(w, d.ieee), bridge, saves)
  }

  /** The part after the request to the bridge; taking the roles away makes none. */
  function AssignAfterWait(w: World, d: Device, goal: Goal, seen: Snapshot, bridge: bool, saves: Saves): (World, bool) {
    if !goal.NoRole? && !bridge then (w, false)
    else
      match goal
      case NoRole =>
        var (w1, ok) := Released(w, seen, saves.configs);
        if !ok || !seen.listed then (w1, ok) else SaveOther(w1, Pop(w1.other, d.ieee), saves.other)
      case Multi =>
        var (w1, ok) := Released(w, seen, saves.configs);
        if !ok then (w1, ok) else SaveOther(w1, Put(w1.other, d.ieee, d.name), saves.other)
      case System(role) => AssignSystem(w, d, role, seen, saves)
      case Unsupported => (w, false)
  }

  /** The configurations with the device in this role, and in no other. */
  function Given(configs: Configs, current: Option<Role>, d: Device, role: Role): Configs {
    var freed := if current.Some? && current.value != role
                 then configs.With(current.value, Unassigned(current.value)) else configs;
    freed.With(role, Config(d.name, Some(d.ieee)))
  }

  function AssignSystem(w: World, d: Device, role: Role, seen: Snapshot, saves: Saves): (World, bool) {
    var holder := seen.configs.Get(role);
    if IsAssigned(holder) && holder.ieee != Some(d.ieee) then (w, false)
    else
      var (w1, ok) := if seen.listed then SaveOther(w, Pop(w.other, d.ieee), saves.other) else (w, true);
      if !ok then (w1, ok) else Apply(w1, Given(seen.configs, seen.current, d, role), saves.configs)
  }

  predicate IsAlnum(c: char) {
    'a' <= c <= 'z' || 'A' <= c <= 'Z' || '0' <= c <= '9'
  }

  predicate IsNameChar(c: char) {
    IsAlnum(c) || c in "_.-"
  }

  /** The pattern of _NAME_RE, and no reserved name. */
  predicate NameAllowed(name: string) {
    && 1 <= |name| <= 64 && IsAlnum(name[0]) && (forall i :: 0 <= i < |name| ==> IsNameChar(name[i]))
    && !(|name| == 6 && name[0] in "bB" && name[1] in "rR" && name[2] in "iI" && name[3] in "dD" &&
         name[4] in "gG" && name[5] in "eE")
    && !IsReserved(name)
  }

  predicate NameTaken(inventory: seq<Device>, name: string, ieee: string) {
    exists i :: 0 <= i < |inventory| && inventory[i].name == name && inventory[i].ieee != ieee
  }

  function Renamed(c: Config, ieee: string, name: string): Config {
    if Assigns(c, ieee) then c.(name := name) else c
  }

  function RenameDevice(w: World, id: string, name: string, bridge: bool, saves: Saves): (World, bool) {
    match Resolve(w, id)
    case None => (w, false)
    case Some(d) =>
      var newName := Strip(name);
      if d.coordinator || !NameAllowed(newName) then (w, false)
      else if newName == d.name then (w, true)
      else if NameTaken(w.inventory, newName, d.ieee) then (w, false)
      else RenameAfterWait(w, d.ieee, newName, bridge, saves)
  }

  function RenameAfterWait(w: World, ieee: string, name: string, bridge: bool, saves: Saves): (World, bool) {
    if !bridge then (w, false)
    else
      var (w1, ok) := NewlyNamed(w, ieee, name, saves.configs);
      if !ok || !HasKey(w1.other, ieee) then (w1, ok) else SaveOther(w1, Put(w1.other, ieee, name), saves.other)
  }

  /** The part of rename_device that writes the configurations. */
  function NewlyNamed(w: World, ieee: string, name: string, write: bool): (World, bool) {
    if CurrentRole(w.configs, ieee).Some?
    then Apply(w, Configs(Renamed(w.configs.supply, ieee, name), Renamed(w.configs.extract, ieee, name)), write)
    else (w, true)
  }

  function Cleared(role: Role, c: Config, ieee: string): Config {
    if Assigns(c, ieee) then Unassigned(role) else c
  }

  predicate NamesCoordinator(inventory: seq<Device>, needle: string) {
    exists i :: 0 <= i < |inventory| && inventory[i].coordinator &&
                (inventory[i].ieee == needle || inventory[i].name == needle)
  }

  function RemoveDevice(w: World, id: string, bridge: bool, saves: Saves): (World, bool) {
    match Resolve(w, id)
    case None => (w, false)
    case Some(d) =>
      if NamesCoordinator(w.inventory, Strip(d.ieee)) then (w, false)
      else RemoveAfterWait(w, d.ieee, bridge, saves)
  }

  function RemoveAfterWait(w: World, ieee: string, bridge: bool, saves: Saves): (World, bool) {
    if !bridge then (w, false)
    else
      var configs := Configs(Cleared(Supply, w.configs.supply, ieee), Cleared(Extract, w.configs.extract, ieee));
      var (w1, ok) := if CurrentRole(w.configs, ieee).Some? then Apply(w, configs, saves.configs) else (w, true);
      if !ok || !HasKey(w1.other, ieee) then (w1, ok) else SaveOther(w1, Pop(w1.other, ieee), saves.other)
  }

  /** by_ieee.get: the last device with the address. */
  function NameInInventory(inventory: seq<Device>, ieee: string): Option<string>
    decreases |inventory|
  {
    if inventory == [] then None
    else if inventory[|inventory| - 1].ieee == ieee then Some(inventory[|inventory| - 1].name)
    else NameInInventory(inventory[..|inventory| - 1], ieee)
  }

  function SyncedName(inventory: seq<Device>, ieee: string, name: string): string {
    var known := NameInInventory(inventory, ieee);
    if known.Some? then known.value else name
  }

  function SyncedConfig(inventory: seq<Device>, c: Config): Config {
    if IsAssigned(c) then c.(name := SyncedName(inventory, c.ieee.value, c.name)) else c
  }

  function SyncedEntries(inventory: seq<Device>, d: seq<Entry>): seq<Entry> {
    seq(|d|, i requires 0 <= i < |d| => Entry(d[i].ieee, SyncedName(inventory, d[i].ieee, d[i].name)))
  }

  /** A new inventory arrives, and _sync_assigned_names_from_inventory takes over its names. */
  function Sync(w: World, inventory: seq<Device>, saves: Saves): (World, bool) {
    var (w1, ok) := SyncedConfigs(w.(inventory := inventory), inventory, saves.configs);
    var other := SyncedEntries(inventory, w1.other);
    if !ok || other == w1.other then (w1, ok) else SaveOther(w1, other, saves.other)
  }

  /** The part of the synchronisation that writes the configurations. */
  function SyncedConfigs(w: World, inventory: seq<Device>, write: bool): (World, bool) {
    var configs := Configs(SyncedConfig(inventory, w.configs.supply), SyncedConfig(inventory, w.configs.extract));
    if configs != w.configs then Apply(w, configs, write) else (w, true)
  }

  // ----- the invariant

  ghost predicate GoodDevice(d: Device) {
    Clean(d.ieee) && Clean(d.name) && !IsReserved(d.name)
  }

  /** Trimmed, non-empty and unreserved names; they need not be unique. */
  ghost predicate GoodInventory(inventory: seq<Device>) {
    forall d :: d in inventory ==> GoodDevice(d)
  }

  ghost predicate GoodConfig(role: Role, c: Config) {
    Proper(role, c) && (c.ieee.Some? ==> !IsReserved(c.name))
  }

  /** The registry in memory: every device has at most one role. */
  ghost predicate GoodRegistry(configs: Configs, other: seq<Entry>) {
    && GoodConfig(Supply, configs.supply) && GoodConfig(Extract, configs.extract)
    && configs.supply.name != configs.extract.name
    && (configs.supply.ieee.Some? ==> configs.supply.ieee != configs.extract.ieee)
    && UniqueKeys(other) && CleanEntries(other)
    && (configs.supply.ieee.Some? ==> !HasKey(other, configs.supply.ieee.value))
    && (configs.extract.ieee.Some? ==> !HasKey(other, configs.extract.ieee.value))
  }

  /** The topic map leads from each device's topic back to its role, and from nowhere else. */
  ghost predicate IsInverse(sensors: map<Role, Sensor>, topics: map<string, Role>) {
    && (forall t :: t in topics ==> topics[t] in sensors && sensors[topics[t]].topic == t)
    && (forall r :: r in sensors ==> sensors[r].topic in topics && topics[sensors[r].topic] == r)
  }

  ghost predicate IsAvailabilityInverse(sensors: map<Role, Sensor>, topics: map<string, Role>) {
    && (forall t :: t in topics ==> topics[t] in sensors && AvailabilityTopic(sensors[topics[t]].topic) == t)
    && (forall r :: r in sensors ==>
          AvailabilityTopic(sensors[r].topic) in topics && topics[AvailabilityTopic(sensors[r].topic)] == r)
  }

  ghost predicate TopicsFit(
    base: string, configs: Configs, sensors: map<Role, Sensor>,
    topics: map<string, Role>, availability: map<string, Role>)
  {
    && sensors == SensorsOf(base, configs)
    && IsInverse(sensors, topics)
    && IsAvailabilityInverse(sensors, availability)
  }

  /** The file says what memory says: loading it gives the registry back. */
  ghost predicate ReloadsTo(file: File, configs: Configs, other: seq<Entry>) {
    Loaded(file).Some? && RuntimeConfigs(Loaded(file).value) == configs && Loaded(file).value.other == other
  }

  /** The device has a system role in the file. */
  predicate HasSystem(file: File, ieee: string) {
    (file.supply.Some? && file.supply.value.ieee == ieee) || (file.extract.Some? && file.extract.value.ieee == ieee)
  }

  predicate HasAddress(configs: Configs, ieee: string) {
    configs.supply.ieee == Some(ieee) || configs.extract.ieee == Some(ieee)
  }

  /** Every system role in the file belongs to a device that has one in memory. */
  ghost predicate CoversSystem(configs: Configs, file: File) {
    forall k :: HasSystem(file, k) ==> HasAddress(configs, k)
  }

  /** Every other record in the file belongs to a device that has one in memory. */
  ghost predicate CoversOther(other: seq<Entry>, file: File) {
    forall k :: HasKey(file.other, k) ==> HasKey(other, k)
  }

  /** The same for every device but one. */
  ghost predicate CoversBut(w: World, ieee: string) {
    && (forall k :: k != ieee && HasSystem(w.file, k) ==> HasAddress(w.configs, k))
    && (forall k :: k != ieee && HasKey(w.file.other, k) ==> HasKey(w.other, k))
  }

  /** Each half of the file is the one in memory when its latest save succeeded. */
  ghost predicate UpToDate(w: World) {
    && (w.configsSaved ==> RuntimeConfigs(w.file) == w.configs)
    && (w.otherSaved ==> w.file.other == w.other)
  }

  /** What holds whatever save fails: a good registry in memory with its topics, and a file
      that the program can start from. */
  ghost predicate Tidy(w: World) {
    && GoodRegistry(w.configs, w.other)
    && TopicsFit(w.base, w.configs, w.sensors, w.topics, w.availability)
    && Bootable(w.file) && (forall f :: f in w.journal ==> Bootable(f))
    && UpToDate(w)
  }

  /** The invariant: in addition, memory still has every role that is on disk. */
  ghost predicate Sound(w: World) {
    Tidy(w) && CoversSystem(w.configs, w.file) && CoversOther(w.other, w.file)
  }

  /** A file the program can start from: every device has at most one role in it. */
  ghost predicate Bootable(file: File) {
    && OneRoleEach(file) && CleanFile(file)
    && (file.supply.Some? ==> !IsReserved(file.supply.value.name))
    && (file.extract.Some? ==> !IsReserved(file.extract.value.name))
    && (file.supply.Some? && file.extract.Some? ==> file.supply.value.name != file.extract.value.name)
  }

  /** Construction of the monitor from the file; None stands for an exception. */
  function Boot(base: string, inventory: seq<Device>, file: File): Option<World> {
    match Loaded(file)
    case None => None
    case Some(bundle) =>
      var configs := RuntimeConfigs(bundle);
      var sensors := SensorsOf(base, configs);
      if !Constructible(configs) then None
      else Some(World(base, inventory, configs, sensors, TopicsOf(sensors), AvailabilityOf(sensors),
                      bundle.other, file, [], true, true))
  }

  // ----- dictionary facts

  lemma KeyInHeadOrTail(d: seq<Entry>, k: string)
    requires d != []
    ensures HasKey(d, k) <==> d[0].ieee == k || HasKey(d[1..], k)
  {
    if HasKey(d, k) && d[0].ieee != k {
      var i :| 0 <= i < |d| && d[i].ieee == k;
      assert d[1..][i - 1] == d[i];
    }
    if HasKey(d[1..], k) {
      var i :| 0 <= i < |d[1..]| && d[1..][i].ieee == k;
      assert d[i + 1] == d[1..][i];
    }
  }

  ghost predicate GoodDict(d: seq<Entry>) {
    UniqueKeys(d) && CleanEntries(d)
  }

  lemma ConsIsGood(e: Entry, d: seq<Entry>)
    requires CleanEntry(e) && GoodDict(d) && !HasKey(d, e.ieee)
    ensures GoodDict([e] + d)
  {
  }

  lemma TailIsGood(d: seq<Entry>)
    requires GoodDict(d) && d != []
    ensures CleanEntry(d[0]) && GoodDict(d[1..]) && !HasKey(d[1..], d[0].ieee)
  {
    assert d[0] in d;
  }

  lemma {:induction false} PutIsGood(d: seq<Entry>, ieee: string, name: string)
    requires GoodDict(d) && CleanEntry(Entry(ieee, name))
    ensures GoodDict(Put(d, ieee, name))
    ensures forall k :: HasKey(Put(d, ieee, name), k) <==> k == ieee || HasKey(d, k)
    ensures forall k :: Lookup(Put(d, ieee, name), k) == if k == ieee then name else Lookup(d, k)
    decreases d
  {
    hide GoodDict, HasKey, CleanEntry;
    var p := Put(d, ieee, name);
    if d == [] {
      assert p == [Entry(ieee, name)];
      SingletonIsGood(p[0]);
    } else {
      TailIsGood(d);
      if d[0].ieee == ieee {
        ConsIsGood(Entry(ieee, name), d[1..]);
      } else {
        PutIsGood(d[1..], ieee, name);
        ConsIsGood(d[0], Put(d[1..], ieee, name));
      }
      forall k ensures HasKey(p, k) <==> k == ieee || HasKey(d, k) {
        KeyInHeadOrTail(p, k);
        KeyInHeadOrTail(d, k);
        assert p[1..] == if d[0].ieee == ieee then d[1..] else Put(d[1..], ieee, name);
      }
      forall k ensures Lookup(p, k) == if k == ieee then name else Lookup(d, k) {
        assert p[1..] == if d[0].ieee == ieee then d[1..] else Put(d[1..], ieee, name);
      }
    }
  }

  lemma SingletonIsGood(e: Entry)
    requires CleanEntry(e)
    ensures GoodDict([e]) && forall k :: HasKey([e], k) <==> k == e.ieee
    ensures forall k :: !HasKey([], k)
  {
    assert [e][0] == e;
  }

  lemma {:induction false} PopIsGood(d: seq<Entry>, ieee: string)
    requires GoodDict(d)
    ensures GoodDict(Pop(d, ieee))
    ensures forall k :: HasKey(Pop(d, ieee), k) <==> k != ieee && HasKey(d, k)
    ensures forall k :: k != ieee ==> Lookup(Pop(d, ieee), k) == Lookup(d, k)
    decreases d
  {
    if d != [] {
      TailIsGood(d);
      hide GoodDict, HasKey, CleanEntry;
      var p := Pop(d, ieee);
      if d[0].ieee != ieee {
        PopIsGood(d[1..], ieee);
        ConsIsGood(d[0], Pop(d[1..], ieee));
      }
      forall k ensures HasKey(p, k) <==> k != ieee && HasKey(d, k) {
        KeyInHeadOrTail(d, k);
        if d[0].ieee != ieee {
          KeyInHeadOrTail(p, k);
          assert p[1..] == Pop(d[1..], ieee);
        }
      }
      forall k | k != ieee ensures Lookup(p, k) == Lookup(d, k) {
        if d[0].ieee != ieee { assert p[1..] == Pop(d[1..], ieee); }
      }
    }
  }

  lemma SyncedIsGood(inventory: seq<Device>, d: seq<Entry>)
    requires GoodDict(d) && GoodInventory(inventory)
    ensures GoodDict(SyncedEntries(inventory, d))
    ensures forall k :: HasKey(SyncedEntries(inventory, d), k) <==> HasKey(d, k)
  {
    hide Clean;
    var p := SyncedEntries(inventory, d);
    forall e | e in p ensures CleanEntry(e) {
      var i :| 0 <= i < |p| && p[i] == e;
      assert d[i] in d;
      InventoryNameIsGood(inventory, d[i].ieee);
    }
    forall k | HasKey(d, k) ensures HasKey(p, k) {
      var i :| 0 <= i < |d| && d[i].ieee == k;
      assert p[i].ieee == k;
    }
    forall k | HasKey(p, k) ensures HasKey(d, k) {
      var i :| 0 <= i < |p| && p[i].ieee == k;
      assert d[i].ieee == k;
    }
  }

  lemma {:induction false} InventoryNameIsGood(inventory: seq<Device>, ieee: string)
    requires GoodInventory(inventory)
    ensures var n := NameInInventory(inventory, ieee); n.Some? ==> Clean(n.value) && !IsReserved(n.value)
    decreases |inventory|
  {
    hide Clean;
    if inventory != [] {
      assert inventory[|inventory| - 1] in inventory;
      InventoryNameIsGood(inventory[..|inventory| - 1], ieee);
    }
  }

  // ----- the two file writes keep the invariant

  lemma PlaceholdersAreFine()
    ensures forall r :: Clean(PlaceholderName(r)) && IsReserved(PlaceholderName(r))
    ensures PlaceholderName(Supply) != PlaceholderName(Extract)
  {
    assert PlaceholderName(Supply)[13] == 's' && PlaceholderName(Extract)[13] == 'e';
  }

  lemma CleanStrips()
    ensures forall s :: Clean(s) ==> Strip(s) == s && s != ""
  {
  }

  lemma TopicIsInjective(base: string, a: string, b: string)
    requires Topic(base, a) == Topic(base, b) || AvailabilityTopic(Topic(base, a)) == AvailabilityTopic(Topic(base, b))
    ensures a == b
  {
    var ta, tb := Topic(base, a), Topic(base, b);
    assert AvailabilityTopic(ta)[..|AvailabilityTopic(ta)| - 13] == ta;
    assert AvailabilityTopic(tb)[..|AvailabilityTopic(tb)| - 13] == tb;
    assert ta[|base| + 1..] == a && tb[|base| + 1..] == b;
  }

  lemma DistinctNamesFit(base: string, configs: Configs)
    requires configs.supply.name != configs.extract.name
    ensures var sensors := SensorsOf(base, configs);
            TopicsFit(base, configs, sensors, TopicsOf(sensors), AvailabilityOf(sensors))
  {
    hide Topic, AvailabilityTopic;
    var s, e := configs.supply.name, configs.extract.name;
    if Topic(base, s) == Topic(base, e) || AvailabilityTopic(Topic(base, s)) == AvailabilityTopic(Topic(base, e)) {
      TopicIsInjective(base, s, e);
    }
  }

  /** Good but for the two names, which may be equal. */
  ghost predicate AlmostGood(configs: Configs, other: seq<Entry>) {
    && GoodConfig(Supply, configs.supply) && GoodConfig(Extract, configs.extract)
    && (configs.supply.ieee.Some? ==> configs.supply.ieee != configs.extract.ieee)
    && UniqueKeys(other) && CleanEntries(other)
    && (configs.supply.ieee.Some? ==> !HasKey(other, configs.supply.ieee.value))
    && (configs.extract.ieee.Some? ==> !HasKey(other, configs.extract.ieee.value))
  }

  lemma ConfigNamesAreClean(configs: Configs, other: seq<Entry>)
    requires AlmostGood(configs, other)
    ensures Strip(configs.supply.name) != "" && Strip(configs.extract.name) != ""
  {
    hide Strip, Clean, HasKey, UniqueKeys;
    CleanStrips();
    PlaceholdersAreFine();
  }

  lemma GoodFromAlmost(configs: Configs, other: seq<Entry>)
    ensures GoodRegistry(configs, other) <==>
            AlmostGood(configs, other) && configs.supply.name != configs.extract.name
  {
  }

  // ----- what the two kinds of save write

  lemma SaveOtherWrites(w: World, other: seq<Entry>, write: bool)
    requires CleanFile(w.file) && GoodDict(other)
    ensures SaveOther(w, other, write) ==
            if write
            then (w.(other := other, file := w.file.(other := other),
                     journal := w.journal + [w.file.(other := other)], otherSaved := true), true)
            else (w.(other := other, otherSaved := false), false)
  {
    CleanFileLoads(w.file);
    CleanIsNotEmpty();
    UniqueRecordsAreKept(other);
    hide Loaded, Clean, FirstOfEach, UniqueKeys, CleanEntries;
  }

  lemma ApplyWrites(w: World, configs: Configs, write: bool)
    requires CleanFile(w.file) && UniqueKeys(w.file.other)
    ensures var file := File(RecordOf(configs.supply), RecordOf(configs.extract), w.file.other);
            Apply(w, configs, write) ==
            if !Constructible(configs) then (w, false)
            else if write
            then (InMemory(w, configs).(file := file, journal := w.journal + [file], configsSaved := true), true)
            else (InMemory(w, configs).(configsSaved := false), false)
  {
    CleanFileLoads(w.file);
    UniqueRecordsAreKept(w.file.other);
    hide Loaded, Constructible, FirstOfEach, UniqueKeys, CleanEntries, SensorsOf, TopicsOf, AvailabilityOf;
  }

  /** The configurations in a file that the program can start from. */
  lemma FileIsGood(file: File)
    requires Bootable(file)
    ensures GoodRegistry(RuntimeConfigs(file), file.other) && GoodDict(file.other) && CleanFile(file)
    ensures forall k :: HasAddress(RuntimeConfigs(file), k) <==> HasSystem(file, k)
  {
    BootRegistryIsGood(file);
    CleanIsNotEmpty();
    hide UniqueKeys, CleanEntries, HasKey, IsReserved, PlaceholderName, Clean, GoodRegistry;
  }

  lemma BootRegistryIsGood(file: File)
    requires Bootable(file)
    ensures GoodRegistry(RuntimeConfigs(file), file.other)
  {
    hide HasKey, UniqueKeys, CleanEntries, Clean, IsReserved, PlaceholderName;
    PlaceholdersAreFine();
    CleanIsNotEmpty();
  }

  /** The file that holds these configurations and these records. */
  lemma PairIsBootable(configs: Configs, other: seq<Entry>)
    requires GoodRegistry(configs, other)
    ensures var file := File(RecordOf(configs.supply), RecordOf(configs.extract), other);
            && Bootable(file) && RuntimeConfigs(file) == configs
            && forall k :: HasSystem(file, k) <==> HasAddress(configs, k)
  {
    CleanIsNotEmpty();
    hide FirstOfEach, HasKey, UniqueKeys, CleanEntries, Clean, IsReserved, PlaceholderName;
  }

  /** A save of configurations: it can only fail over equal names or over the write. */
  lemma ApplyEffect(w: World, configs: Configs, write: bool)
    requires Tidy(w) && AlmostGood(configs, w.other) && AlmostGood(configs, w.file.other)
    ensures var (after, ok) := Apply(w, configs, write);
            var differ := configs.supply.name != configs.extract.name;
            && ok == (differ && write) && Tidy(after)
            && (if differ then after.configs == configs else after == w)
            && after.inventory == w.inventory && after.other == w.other && after.file.other == w.file.other
            && (if ok then
                  after.journal == w.journal + [after.file] &&
                  forall k :: HasSystem(after.file, k) <==> HasAddress(configs, k)
                else after.file == w.file && after.journal == w.journal)
  {
    FileIsGood(w.file);
    ApplyWrites(w, configs, write);
    ConfigNamesAreClean(configs, w.other);
    GoodFromAlmost(configs, w.other);
    GoodFromAlmost(configs, w.file.other);
    if configs.supply.name != configs.extract.name {
      PairIsBootable(configs, w.file.other);
      AppliedIsTidy(w, configs);
      SavedIsTidy(w, configs, File(RecordOf(configs.supply), RecordOf(configs.extract), w.file.other));
    }
    hide Apply, Tidy, AlmostGood, GoodRegistry, RuntimeConfigs, HasSystem, HasAddress, Strip, Bootable;
    hide SensorsOf, TopicsOf, AvailabilityOf, RecordOf, CleanFile, GoodDict;
  }

  lemma AppliedIsTidy(w: World, configs: Configs)
    requires Tidy(w) && GoodRegistry(configs, w.other)
    ensures Tidy(InMemory(w, configs).(configsSaved := false))
  {
    NamesDiffer(configs, w.other);
    DistinctNamesFit(w.base, configs);
    hide TopicsFit, Bootable, GoodRegistry, RuntimeConfigs, SensorsOf, TopicsOf, AvailabilityOf;
  }

  lemma NamesDiffer(configs: Configs, other: seq<Entry>)
    requires GoodRegistry(configs, other)
    ensures configs.supply.name != configs.extract.name
  {
  }

  lemma SavedIsTidy(w: World, configs: Configs, file: File)
    requires Tidy(w) && GoodRegistry(configs, w.other)
    requires Bootable(file) && RuntimeConfigs(file) == configs && file.other == w.file.other
    ensures Tidy(InMemory(w, configs).(file := file, journal := w.journal + [file], configsSaved := true))
  {
    AppliedIsTidy(w, configs);
    hide TopicsFit, Bootable, GoodRegistry, RuntimeConfigs, SensorsOf, TopicsOf, AvailabilityOf;
  }

  lemma SaveOtherEffect(w: World, other: seq<Entry>, write: bool)
    requires Tidy(w) && AlmostGood(w.configs, other) && AlmostGood(RuntimeConfigs(w.file), other)
    ensures var (after, ok) := SaveOther(w, other, write);
            && ok == write && Tidy(after)
            && after.inventory == w.inventory && after.configs == w.configs && after.other == other
            && (if ok then after.file == w.file.(other := other) && after.journal == w.journal + [after.file]
                else after.file == w.file && after.journal == w.journal)
  {
    FileIsGood(w.file);
    AlmostIsDict(w.configs, other);
    SaveOtherWrites(w, other, write);
    GoodFromAlmost(w.configs, w.other);
    GoodFromAlmost(w.configs, other);
    GoodFromAlmost(RuntimeConfigs(w.file), w.file.other);
    GoodFromAlmost(RuntimeConfigs(w.file), other);
    PairIsBootable(RuntimeConfigs(w.file), other);
    FileRewritten(w.file);
    hide SaveOther, TopicsFit, Bootable, AlmostGood, GoodRegistry, CleanFile, GoodDict, RecordOf;
  }

  lemma AlmostIsDict(configs: Configs, other: seq<Entry>)
    requires AlmostGood(configs, other)
    ensures GoodDict(other)
  {
  }

  lemma FileRewritten(file: File)
    requires Bootable(file)
    ensures RecordOf(RuntimeConfigs(file).supply) == file.supply
    ensures RecordOf(RuntimeConfigs(file).extract) == file.extract
  {
    CleanIsNotEmpty();
    hide HasKey, UniqueKeys, CleanEntries, Clean, IsReserved, PlaceholderName;
  }

  // ----- the two kinds of save and the invariant

  /** What is on disk fits to configurations that fit to memory. */
  lemma DiskFits(configs: Configs, other: seq<Entry>, file: File)
    requires AlmostGood(configs, other) && Bootable(file)
    ensures CoversOther(other, file) ==> AlmostGood(configs, file.other)
    ensures CoversSystem(configs, file) ==> AlmostGood(RuntimeConfigs(file), other)
  {
    FileIsGood(file);
    GoodFromAlmost(RuntimeConfigs(file), file.other);
    hide RuntimeConfigs, HasSystem, Bootable, GoodRegistry, UniqueKeys, CleanEntries, HasKey, Clean;
    var onDisk := RuntimeConfigs(file);
    assert onDisk.supply.ieee.Some? ==> HasAddress(onDisk, onDisk.supply.ieee.value);
    assert onDisk.extract.ieee.Some? ==> HasAddress(onDisk, onDisk.extract.ieee.value);
  }

  /** Applying configurations keeps the invariant, unless the save fails and a device loses
      a role that is still on disk. */
  lemma ApplyKeepsSound(w: World, configs: Configs, write: bool)
    requires Sound(w) && AlmostGood(configs, w.other)
    ensures var (after, ok) := Apply(w, configs, write);
            var differ := configs.supply.name != configs.extract.name;
            && ok == (differ && write) && Tidy(after) && CoversOther(after.other, after.file)
            && (if differ then after.configs == configs else after == w)
            && after.inventory == w.inventory && after.other == w.other && after.file.other == w.file.other
            && (!ok ==> after.file == w.file)
            && (Sound(after) <==> !differ || write || CoversSystem(configs, w.file))
  {
    DiskFits(configs, w.other, w.file);
    ApplyEffect(w, configs, write);
    hide Apply, Tidy, AlmostGood, HasSystem, HasAddress, HasKey;
  }

  /** The same for the other records. */
  lemma SaveOtherKeepsSound(w: World, other: seq<Entry>, write: bool)
    requires Sound(w) && AlmostGood(w.configs, other)
    ensures var (after, ok) := SaveOther(w, other, write);
            && ok == write && Tidy(after)
            && after.inventory == w.inventory && after.configs == w.configs && after.other == other
            && (!ok ==> after.file == w.file)
            && (Sound(after) <==> write || CoversOther(other, w.file))
  {
    DiskFits(w.configs, other, w.file);
    SaveOtherEffect(w, other, write);
    assert forall k, d :: HasSystem(w.file.(other := d), k) == HasSystem(w.file, k);
    hide SaveOther, Tidy, AlmostGood, HasSystem, HasAddress, HasKey;
  }

  // ----- the operations keep the invariant and do what they are for

  /** In a good registry a configuration is assigned exactly when it has an address. */
  lemma AssignedMeansAddress(configs: Configs, other: seq<Entry>)
    requires AlmostGood(configs, other)
    ensures IsAssigned(configs.supply) <==> configs.supply.ieee.Some?
    ensures IsAssigned(configs.extract) <==> configs.extract.ieee.Some?
    ensures forall k :: CurrentRole(configs, k).Some? <==> HasAddress(configs, k)
  {
    hide IsReserved, Strip;
  }

  /** The same for the registry of a world. */
  lemma RegistryParts(w: World)
    requires GoodRegistry(w.configs, w.other)
    ensures AlmostGood(w.configs, w.other) && w.configs.supply.name != w.configs.extract.name
    ensures GoodDict(w.other)
    ensures IsAssigned(w.configs.supply) <==> w.configs.supply.ieee.Some?
    ensures IsAssigned(w.configs.extract) <==> w.configs.extract.ieee.Some?
    ensures forall k :: CurrentRole(w.configs, k).Some? <==> HasAddress(w.configs, k)
    ensures forall k :: HasAddress(w.configs, k) ==> !HasKey(w.other, k)
  {
    AssignedMeansAddress(w.configs, w.other);
    hide HasKey, IsReserved, Clean;
  }

  /** Every other device keeps its role and its name. */
  ghost predicate OthersKept(before: World, after: World, ieee: string) {
    forall k :: k != ieee ==> RoleOf(after, k) == RoleOf(before, k) && NameOf(after, k) == NameOf(before, k)
  }

  lemma ReleaseKeepsSound(w: World, ieee: string, write: bool)
    requires Sound(w)
    ensures var (after, ok) := Released(w, SnapshotOf(w, ieee), write);
            && Tidy(after) && after.inventory == w.inventory && after.other == w.other
            && OthersKept(w, after, ieee) && !HasAddress(after.configs, ieee)
            && ok == (CurrentRole(w.configs, ieee).None? || write)
            && (!ok ==> after.file == w.file)
            && (Sound(after) <==> ok || !HasSystem(w.file, ieee)) && CoversBut(after, ieee)
  {
    hide Lookup, Apply, TopicsFit, Bootable, HasKey, UniqueKeys, CleanEntries, Clean, PlaceholderName, IsReserved;
    hide HasSystem;
    PlaceholdersAreFine();
    RegistryParts(w);
    var current := CurrentRole(w.configs, ieee);
    if current.Some? {
      var configs := w.configs.With(current.value, Unassigned(current.value));
      assert AlmostGood(configs, w.other);
      AssignedMeansAddress(configs, w.other);
      ApplyKeepsSound(w, configs, write);
      assert forall k :: HasAddress(configs, k) <==> k != ieee && HasAddress(w.configs, k);
    }
  }

  lemma PutKeepsSound(w: World, ieee: string, name: string, write: bool)
    requires Sound(w) && Clean(ieee) && Clean(name) && !HasAddress(w.configs, ieee)
    ensures var (after, ok) := SaveOther(w, Put(w.other, ieee, name), write);
            && ok == write && Sound(after) && after.inventory == w.inventory && after.configs == w.configs
            && OthersKept(w, after, ieee) && RoleOf(after, ieee) == Multi && NameOf(after, ieee) == name
  {
    hide Lookup, SaveOther, Tidy, HasKey, UniqueKeys, CleanEntries, Clean, IsReserved, HasSystem;
    assert GoodRegistry(w.configs, w.other) by { TidyHasRegistry(w); }
    RegistryParts(w);
    PutIsGood(w.other, ieee, name);
    SaveOtherKeepsSound(w, Put(w.other, ieee, name), write);
  }

  lemma TidyHasRegistry(w: World)
    requires Tidy(w)
    ensures GoodRegistry(w.configs, w.other)
  {
  }

  lemma PopKeepsSound(w: World, ieee: string, write: bool)
    requires Sound(w)
    ensures var (after, ok) := SaveOther(w, Pop(w.other, ieee), write);
            && ok == write && Tidy(after) && after.inventory == w.inventory && after.configs == w.configs
            && OthersKept(w, after, ieee) && !HasKey(after.other, ieee)
            && (Sound(after) <==> write || !HasKey(w.file.other, ieee)) && CoversBut(after, ieee)
  {
    hide Lookup, SaveOther, Tidy, HasKey, UniqueKeys, CleanEntries, Clean, IsReserved, HasSystem;
    TidyHasRegistry(w);
    RegistryParts(w);
    PopIsGood(w.other, ieee);
    SaveOtherKeepsSound(w, Pop(w.other, ieee), write);
  }

  function Opposite(role: Role): Role {
    if role.Supply? then Extract else Supply
  }

  /** The slot of the role is free or already holds the device. */
  predicate SlotIsOpen(w: World, d: Device, role: Role) {
    w.configs.Get(role).ieee.None? || w.configs.Get(role).ieee == Some(d.ieee)
  }

  /** The device in the other slot has the same name. */
  predicate NameClashes(w: World, d: Device, role: Role) {
    w.configs.Get(Opposite(role)).ieee != Some(d.ieee) && w.configs.Get(Opposite(role)).name == d.name
  }

  /** What a system role leaves when the slot is open. */
  function SystemLeaves(w: World, d: Device, role: Role, saves: Saves): Goal {
    if HasKey(w.other, d.ieee) && !saves.other then NoRole
    else if !NameClashes(w, d, role) then System(role)
    else if HasKey(w.other, d.ieee) then NoRole
    else RoleOf(w, d.ieee)
  }

  lemma AssignSystemKeepsSound(w: World, d: Device, role: Role, saves: Saves)
    requires Sound(w) && GoodDevice(d)
    ensures var (after, ok) := AssignSystem(w, d, role, SnapshotOf(w, d.ieee), saves);
            && Tidy(after) && after.inventory == w.inventory && OthersKept(w, after, d.ieee)
            && (ok <==> SlotIsOpen(w, d, role) && (HasKey(w.other, d.ieee) ==> saves.other) &&
                        !NameClashes(w, d, role) && saves.configs)
            && (if SlotIsOpen(w, d, role) then RoleOf(after, d.ieee) == SystemLeaves(w, d, role, saves) else after == w)
            && (ok ==> NameOf(after, d.ieee) == d.name)
            && (Sound(after) <==> !(SlotIsOpen(w, d, role) && HasKey(w.file.other, d.ieee) && !saves.other))
            && CoversBut(after, d.ieee)
  {
    hide Apply, SaveOther, Tidy, Given, HasKey, UniqueKeys, CleanEntries, Clean, Lookup, HasSystem;
    hide PlaceholderName, IsReserved;
    TidyHasRegistry(w);
    RegistryParts(w);
    if SlotIsOpen(w, d, role) {
      PopKeepsSound(w, d.ieee, saves.other);
      var (w1, ok) := if HasKey(w.other, d.ieee) then SaveOther(w, Pop(w.other, d.ieee), saves.other) else (w, true);
      if ok {
        SystemGiven(w1, d, role, saves.configs);
      }
    }
  }

  /** The last step of a system role: the device is no longer in the dictionary. */
  lemma SystemGiven(w: World, d: Device, role: Role, write: bool)
    requires Sound(w) && GoodDevice(d) && !HasKey(w.other, d.ieee) && SlotIsOpen(w, d, role)
    ensures var (after, ok) := Apply(w, Given(w.configs, CurrentRole(w.configs, d.ieee), d, role), write);
            && ok == (!NameClashes(w, d, role) && write) && Sound(after)
            && after.inventory == w.inventory && OthersKept(w, after, d.ieee)
            && (if NameClashes(w, d, role) then after == w
                else RoleOf(after, d.ieee) == System(role) && NameOf(after, d.ieee) == d.name)
  {
    hide Apply, Tidy, HasKey, UniqueKeys, CleanEntries, Clean, Lookup, HasSystem, PlaceholderName, IsReserved;
    TidyHasRegistry(w);
    PlaceholdersAreFine();
    RegistryParts(w);
    var configs := Given(w.configs, CurrentRole(w.configs, d.ieee), d, role);
    assert AlmostGood(configs, w.other);
    AssignedMeansAddress(configs, w.other);
    ApplyKeepsSound(w, configs, write);
    assert forall k :: HasAddress(w.configs, k) ==> HasAddress(configs, k);
  }

  lemma {:induction false} ResolvedIsGood(inventory: seq<Device>, needle: string)
    requires GoodInventory(inventory)
    ensures var d := FirstMatch(inventory, needle); d.Some? ==> GoodDevice(d.value) && d.value in inventory
    decreases inventory
  {
    hide GoodDevice;
    if inventory != [] {
      assert inventory[0] in inventory;
      ResolvedIsGood(inventory[1..], needle);
    }
  }

  /** The address or the name of the device. */
  predicate Named(d: Device, needle: string) {
    d.ieee == needle || d.name == needle
  }

  /** The first device of the inventory with this address or name. */
  ghost predicate IsChosen(inventory: seq<Device>, needle: string, d: Device) {
    needle != "" && exists i :: ChosenAt(inventory, needle, d, i)
  }

  ghost predicate ChosenAt(inventory: seq<Device>, needle: string, d: Device, i: int) {
    && 0 <= i < |inventory| && inventory[i] == d && Named(d, needle)
    && forall j :: 0 <= j < i ==> !Named(inventory[j], needle)
  }

  lemma {:induction false} FirstMatchIsFirst(inventory: seq<Device>, needle: string)
    ensures var found := FirstMatch(inventory, needle);
            && (found.None? <==> forall d :: d in inventory ==> !Named(d, needle))
            && (found.Some? ==> exists i :: ChosenAt(inventory, needle, found.value, i))
    decreases inventory
  {
    if inventory != [] {
      var rest := inventory[1..];
      assert inventory == [inventory[0]] + rest;
      FirstMatchIsFirst(rest, needle);
      if Named(inventory[0], needle) {
        assert ChosenAt(inventory, needle, inventory[0], 0);
      } else if FirstMatch(rest, needle).Some? {
        var i :| ChosenAt(rest, needle, FirstMatch(rest, needle).value, i);
        assert ChosenAt(inventory, needle, FirstMatch(rest, needle).value, i + 1);
      }
    }
  }

  /** The device that an id stands for: the chosen one; none exactly when the id is blank or
      no device has it as its address or name. */
  lemma ResolveMeaning(w: World, id: string)
    ensures Resolve(w, id).None? <==> Strip(id) == "" || forall d :: d in w.inventory ==> !Named(d, Strip(id))
    ensures forall d :: Resolve(w, id) == Some(d) <==> IsChosen(w.inventory, Strip(id), d)
  {
    FirstMatchIsFirst(w.inventory, Strip(id));
    forall d ensures Resolve(w, id) == Some(d) <==> IsChosen(w.inventory, Strip(id), d) {
      if IsChosen(w.inventory, Strip(id), d) {
        var i :| ChosenAt(w.inventory, Strip(id), d, i);
        assert d in w.inventory;
      }
    }
    hide Strip;
  }

  /** The only device with this address or name is the chosen one. */
  lemma OnlyOneIsChosen(inventory: seq<Device>, needle: string, d: Device)
    requires needle != "" && d in inventory && Named(d, needle)
    requires forall e :: e in inventory && Named(e, needle) ==> e == d
    ensures IsChosen(inventory, needle, d)
  {
    FirstMatchIsFirst(inventory, needle);
    var found := FirstMatch(inventory, needle);
    var i :| ChosenAt(inventory, needle, found.value, i);
    assert found.value in inventory;
  }

  /** A blank or unknown id is refused, and nothing changes. */
  lemma UnknownIsRefused(w: World, id: string, goal: Goal, name: string, bridge: bool, saves: Saves)
    requires Strip(id) == "" || forall d :: d in w.inventory ==> !Named(d, Strip(id))
    ensures AssignRole(w, id, goal, bridge, saves) == (w, false)
    ensures RenameDevice(w, id, name, bridge, saves) == (w, false)
    ensures RemoveDevice(w, id, bridge, saves) == (w, false)
  {
    ResolveMeaning(w, id);
    hide Resolve, Strip, AssignAfterWait;
  }

  /** The operation gets as far as the registry. */
  predicate Reaches(w: World, d: Device, goal: Goal, bridge: bool) {
    !goal.Unsupported? && (goal.NoRole? || bridge) && (goal.System? ==> SlotIsOpen(w, d, goal.role))
  }

  /** Every save that taking a role away, or renaming, makes for this device succeeds. */
  predicate RoleStored(w: World, ieee: string, saves: Saves) {
    (CurrentRole(w.configs, ieee).Some? ==> saves.configs) && (HasKey(w.other, ieee) ==> saves.other)
  }

  /** Every save that the assignment makes succeeds. */
  predicate Stored(w: World, d: Device, goal: Goal, saves: Saves) {
    match goal
    case Multi => (CurrentRole(w.configs, d.ieee).Some? ==> saves.configs) && saves.other
    case System(_) => (HasKey(w.other, d.ieee) ==> saves.other) && saves.configs
    case _ => RoleStored(w, d.ieee, saves)
  }

  /** The role that an assignment which reaches the registry leaves in memory. */
  function RoleLeft(w: World, d: Device, goal: Goal, saves: Saves): Goal {
    match goal
    case Multi => if CurrentRole(w.configs, d.ieee).Some? && !saves.configs then NoRole else Multi
    case System(role) => SystemLeaves(w, d, role, saves)
    case _ => NoRole
  }

  /** A save fails that takes the role of this device off the disk. */
  predicate StaysOnDisk(w: World, ieee: string, saves: Saves) {
    (HasSystem(w.file, ieee) && !saves.configs) || (HasKey(w.file.other, ieee) && !saves.other)
  }

  /** The same for an assignment: "other" replaces a system role and keeps a record, a
      system role replaces a record and keeps a system role. */
  predicate UnluckyAssignment(w: World, d: Device, goal: Goal, saves: Saves) {
    match goal
    case Multi => HasSystem(w.file, d.ieee) && !saves.configs
    case System(_) => HasKey(w.file.other, d.ieee) && !saves.other
    case _ => StaysOnDisk(w, d.ieee, saves)
  }

  lemma NoConfigNoEntry(w: World, ieee: string)
    requires !HasAddress(w.configs, ieee)
    ensures RoleOf(w, ieee) == if HasKey(w.other, ieee) then Multi else NoRole
  {
  }

  /** Taking the role away, as role null and the removal do. */
  lemma TakenAway(w: World, d: Device, saves: Saves)
    requires Sound(w)
    ensures var (after, ok) := AssignAfterWait(w, d, NoRole, SnapshotOf(w, d.ieee), true, saves);
            && Tidy(after) && after.inventory == w.inventory && OthersKept(w, after, d.ieee)
            && ok == RoleStored(w, d.ieee, saves) && RoleOf(after, d.ieee) == NoRole
            && (Sound(after) <==> !StaysOnDisk(w, d.ieee, saves)) && CoversBut(after, d.ieee)
  {
    TidyHasRegistry(w);
    RegistryParts(w);
    ReleaseKeepsSound(w, d.ieee, saves.configs);
    var (w1, ok) := Released(w, SnapshotOf(w, d.ieee), saves.configs);
    NoConfigNoEntry(w1, d.ieee);
    hide Apply, SaveOther, HasKey, Tidy, RoleOf, NameOf, HasSystem, HasAddress, Released;
    if ok {
      PopKeepsSound(w1, d.ieee, saves.other);
      NoConfigNoEntry(SaveOther(w1, Pop(w1.other, d.ieee), saves.other).0, d.ieee);
    }
  }

  /** What assign_role does to the registry after the wait, when nothing else has touched
      it: when it succeeds; which role the device then has in memory, failed saves included;
      that no other device changes; and that the invariant survives unless a save fails
      that takes the device's role off the disk. */
  lemma AssignmentMeaning(w: World, d: Device, goal: Goal, bridge: bool, saves: Saves)
    requires Sound(w) && GoodDevice(d)
    ensures var (after, ok) := AssignAfterWait(w, d, goal, SnapshotOf(w, d.ieee), bridge, saves);
            var reached := Reaches(w, d, goal, bridge);
            && Tidy(after) && after.inventory == w.inventory && OthersKept(w, after, d.ieee)
            && (ok <==> reached && Stored(w, d, goal, saves) && (goal.System? ==> !NameClashes(w, d, goal.role)))
            && (if reached then RoleOf(after, d.ieee) == RoleLeft(w, d, goal, saves) else after == w)
            && (ok && goal != NoRole ==> NameOf(after, d.ieee) == d.name)
            && (Sound(after) <==> !(reached && UnluckyAssignment(w, d, goal, saves))) && CoversBut(after, d.ieee)
  {
    hide Apply, SaveOther, HasKey, Clean, Tidy, Released, AssignSystem, RoleOf, NameOf, SlotIsOpen, NameClashes;
    hide HasSystem, HasAddress, SystemLeaves;
    match goal
    case NoRole => TakenAway(w, d, saves);
    case System(role) => if bridge { AssignSystemKeepsSound(w, d, role, saves); }
    case Multi =>
      ReleaseKeepsSound(w, d.ieee, saves.configs);
      var (w1, released) := Released(w, SnapshotOf(w, d.ieee), saves.configs);
      ReleasedRole(w, w1, d.ieee);
      if released { PutKeepsSound(w1, d.ieee, d.name, saves.other); }
    case Unsupported =>
  }

  lemma ReleasedRole(w: World, w1: World, ieee: string)
    requires Sound(w) && w1.other == w.other && !HasAddress(w1.configs, ieee)
    ensures CurrentRole(w.configs, ieee).Some? ==> RoleOf(w1, ieee) == NoRole
    ensures CurrentRole(w.configs, ieee).None? ==> !HasSystem(w.file, ieee)
  {
    TidyHasRegistry(w);
    RegistryParts(w);
    NoConfigNoEntry(w1, ieee);
    hide Tidy, HasKey, HasSystem, HasAddress, RoleOf;
  }

  /** assign_role as one caller sees it: it acts on the device chosen by the id. */
  lemma AssignMeaning(w: World, id: string, d: Device, goal: Goal, bridge: bool, saves: Saves)
    requires Sound(w) && GoodInventory(w.inventory) && IsChosen(w.inventory, Strip(id), d)
    ensures var (after, ok) := AssignRole(w, id, goal, bridge, saves);
            var reached := !d.coordinator && Reaches(w, d, goal, bridge);
            && Tidy(after) && after.inventory == w.inventory && OthersKept(w, after, d.ieee)
            && (ok <==> reached && Stored(w, d, goal, saves) && (goal.System? ==> !NameClashes(w, d, goal.role)))
            && RoleOf(after, d.ieee) == (if reached then RoleLeft(w, d, goal, saves) else RoleOf(w, d.ieee))
            && (ok ==> RoleOf(after, d.ieee) == goal && (goal != NoRole ==> NameOf(after, d.ieee) == d.name))
            && (Sound(after) <==> !(reached && UnluckyAssignment(w, d, goal, saves)))
  {
    ResolvedIsGood(w.inventory, Strip(id));
    ResolveMeaning(w, id);
    assert Resolve(w, id) == Some(d);
    AssignmentMeaning(w, d, goal, bridge, saves);
    hide AssignAfterWait, Tidy, Resolve, RoleOf, NameOf, SlotIsOpen, HasKey, HasSystem, Strip, IsChosen;
  }

  /** Every device keeps its role. */
  ghost predicate RolesKept(before: World, after: World) {
    forall k :: RoleOf(after, k) == RoleOf(before, k)
  }

  lemma AllowedNamesAreGood(name: string)
    requires NameAllowed(name)
    ensures Clean(name) && !IsReserved(name)
  {
  }

  /** The slot that the device does not hold has the name already. */
  predicate NewNameClashes(w: World, ieee: string, name: string) {
    var current := CurrentRole(w.configs, ieee);
    current.Some? && w.configs.Get(Opposite(current.value)).name == name
  }

  /** New good names for assigned configurations. */
  lemma NewNamesKeepSound(w: World, configs: Configs, write: bool)
    requires Sound(w)
    requires forall r :: configs.Get(r).ieee == w.configs.Get(r).ieee
    requires forall r :: configs.Get(r) != w.configs.Get(r) ==>
                           configs.Get(r).ieee.Some? && Clean(configs.Get(r).name) && !IsReserved(configs.Get(r).name)
    ensures AlmostGood(configs, w.other)
    ensures var (after, ok) := Apply(w, configs, write);
            var differ := configs.supply.name != configs.extract.name;
            && Sound(after) && after.inventory == w.inventory && after.other == w.other && RolesKept(w, after)
            && ok == (differ && write)
            && (if differ then after.configs == configs else after == w)
  {
    hide Apply, Tidy, HasKey, UniqueKeys, CleanEntries, Clean, PlaceholderName, IsReserved, HasSystem;
    assert w.configs.Get(Supply) == w.configs.supply && w.configs.Get(Extract) == w.configs.extract;
    assert configs.Get(Supply) == configs.supply && configs.Get(Extract) == configs.extract;
    TidyHasRegistry(w);
    RegistryParts(w);
    AssignedMeansAddress(configs, w.other);
    ApplyKeepsSound(w, configs, write);
  }

  lemma NewNameMeaning(w: World, ieee: string, name: string, write: bool)
    requires Sound(w) && Clean(name) && !IsReserved(name)
    ensures var (after, ok) := NewlyNamed(w, ieee, name, write);
            var clash := NewNameClashes(w, ieee, name);
            && Sound(after) && after.inventory == w.inventory && after.other == w.other
            && RolesKept(w, after) && OthersKept(w, after, ieee)
            && ok == (!clash && (CurrentRole(w.configs, ieee).Some? ==> write))
            && (clash ==> after == w)
            && (!clash && CurrentRole(w.configs, ieee).Some? ==> NameOf(after, ieee) == name)
            && (CurrentRole(after.configs, ieee).Some? <==> CurrentRole(w.configs, ieee).Some?)
  {
    hide Apply, Tidy, HasKey, UniqueKeys, CleanEntries, Clean, PlaceholderName, IsReserved, Lookup, HasSystem;
    var configs := Configs(Renamed(w.configs.supply, ieee, name), Renamed(w.configs.extract, ieee, name));
    TidyHasRegistry(w);
    RegistryParts(w);
    if CurrentRole(w.configs, ieee).Some? {
      NewNamesKeepSound(w, configs, write);
      AssignedMeansAddress(configs, w.other);
    }
  }

  /** What rename_device does to the registry after the wait: when it succeeds; the device
      is then registered under the new name, also when a save fails; and nothing else
      changes: no role, no other name. */
  lemma RenamingMeaning(w: World, ieee: string, name: string, bridge: bool, saves: Saves)
    requires Sound(w) && Clean(name) && !IsReserved(name)
    ensures var (after, ok) := RenameAfterWait(w, ieee, name, bridge, saves);
            var done := bridge && !NewNameClashes(w, ieee, name);
            && Sound(after) && after.inventory == w.inventory && RolesKept(w, after) && OthersKept(w, after, ieee)
            && ok == (done && RoleStored(w, ieee, saves))
            && (done && RoleOf(w, ieee) != NoRole ==> NameOf(after, ieee) == name)
            && (!done ==> after == w)
  {
    NewNameMeaning(w, ieee, name, saves.configs);
    var (w1, ok) := NewlyNamed(w, ieee, name, saves.configs);
    TidyHasRegistry(w);
    RegistryParts(w);
    hide Apply, SaveOther, HasKey, Clean, Tidy, NameOf, IsReserved, NewlyNamed, NewNameClashes, HasSystem;
    if HasKey(w.other, ieee) {
      ListedIsClean(w, ieee);
      ListedNoRole(w1, ieee);
      PutKeepsSound(w1, ieee, name, saves.other);
    } else {
      NoEntryNoMulti(w, ieee);
    }
  }

  lemma ListedIsClean(w: World, ieee: string)
    requires Sound(w) && HasKey(w.other, ieee)
    ensures Clean(ieee)
  {
    hide TopicsFit, Clean;
    var i :| 0 <= i < |w.other| && w.other[i].ieee == ieee;
    assert w.other[i] in w.other;
  }

  lemma ListedNoRole(w: World, ieee: string)
    requires Sound(w) && HasKey(w.other, ieee)
    ensures !HasAddress(w.configs, ieee) && RoleOf(w, ieee) == Multi && CurrentRole(w.configs, ieee).None?
  {
    TidyHasRegistry(w);
    RegistryParts(w);
    hide Tidy, HasKey;
  }

  lemma NoEntryNoMulti(w: World, ieee: string)
    requires !HasKey(w.other, ieee)
    ensures RoleOf(w, ieee) != NoRole ==> CurrentRole(w.configs, ieee).Some?
  {
  }

  lemma TakenMeans(inventory: seq<Device>, name: string, ieee: string)
    ensures NameTaken(inventory, name, ieee) <==> exists e :: e in inventory && e.name == name && e.ieee != ieee
  {
    if NameTaken(inventory, name, ieee) {
      var i :| 0 <= i < |inventory| && inventory[i].name == name && inventory[i].ieee != ieee;
      assert inventory[i] in inventory;
    }
  }

  lemma CoordinatorMeans(inventory: seq<Device>, needle: string)
    ensures NamesCoordinator(inventory, needle) <==>
            exists e :: e in inventory && e.coordinator && (e.ieee == needle || e.name == needle)
  {
    if NamesCoordinator(inventory, needle) {
      var i :| 0 <= i < |inventory| && inventory[i].coordinator &&
               (inventory[i].ieee == needle || inventory[i].name == needle);
      assert inventory[i] in inventory;
    }
  }

  /** rename_device as one caller sees it. */
  lemma RenameMeaning(w: World, id: string, d: Device, name: string, bridge: bool, saves: Saves)
    requires Sound(w) && GoodInventory(w.inventory) && IsChosen(w.inventory, Strip(id), d)
    ensures var (after, ok) := RenameDevice(w, id, name, bridge, saves);
            var newName := Strip(name);
            var taken := exists e :: e in w.inventory && e.name == newName && e.ieee != d.ieee;
            var refused := d.coordinator || !NameAllowed(newName) || taken;
            && Sound(after) && after.inventory == w.inventory && RolesKept(w, after) && OthersKept(w, after, d.ieee)
            && (newName == d.name && NameAllowed(newName) && !d.coordinator ==> ok && after == w)
            && (newName != d.name ==>
                  var done := !refused && bridge && !NewNameClashes(w, d.ieee, newName);
                  && ok == (done && RoleStored(w, d.ieee, saves))
                  && (done && RoleOf(w, d.ieee) != NoRole ==> NameOf(after, d.ieee) == newName)
                  && (!done ==> after == w))
  {
    var newName := Strip(name);
    ResolveMeaning(w, id);
    assert Resolve(w, id) == Some(d);
    TakenMeans(w.inventory, newName, d.ieee);
    if NameAllowed(newName) {
      AllowedNamesAreGood(newName);
      RenamingMeaning(w, d.ieee, newName, bridge, saves);
    }
    hide RenameAfterWait, Tidy, Strip, NameAllowed, NameTaken, Resolve, RoleOf, NameOf, NewNameClashes, HasKey;
    hide IsChosen;
  }

  /** Clearing the configurations of the device is releasing its role. */
  lemma RemovalTakesAway(w: World, d: Device, saves: Saves)
    requires Sound(w)
    ensures RemoveAfterWait(w, d.ieee, true, saves) == AssignAfterWait(w, d, NoRole, SnapshotOf(w, d.ieee), true, saves)
  {
    TidyHasRegistry(w);
    ClearedIsReleased(w, d.ieee);
    ReleaseKeepsSound(w, d.ieee, saves.configs);
    hide Apply, SaveOther, Sound, HasKey, CurrentRole, Cleared, OthersKept;
  }

  lemma ClearedIsReleased(w: World, ieee: string)
    requires GoodRegistry(w.configs, w.other)
    ensures var current := CurrentRole(w.configs, ieee);
            current.Some? ==>
              Configs(Cleared(Supply, w.configs.supply, ieee), Cleared(Extract, w.configs.extract, ieee)) ==
              w.configs.With(current.value, Unassigned(current.value))
  {
    RegistryParts(w);
    hide HasKey, PlaceholderName, IsReserved, Clean, UniqueKeys, CleanEntries;
  }

  /** What remove_device does to the registry after the wait: it takes the role of the
      device and changes no other; the invariant survives unless a save fails that takes
      the role off the disk. */
  lemma RemovalMeaning(w: World, ieee: string, bridge: bool, saves: Saves)
    requires Sound(w)
    ensures var (after, ok) := RemoveAfterWait(w, ieee, bridge, saves);
            && Tidy(after) && after.inventory == w.inventory && OthersKept(w, after, ieee)
            && ok == (bridge && RoleStored(w, ieee, saves))
            && (if bridge then RoleOf(after, ieee) == NoRole else after == w)
            && (Sound(after) <==> !(bridge && StaysOnDisk(w, ieee, saves))) && CoversBut(after, ieee)
  {
    var d := Device(ieee, "", false);
    TakenAway(w, d, saves);
    RemovalTakesAway(w, d, saves);
    hide Tidy, AssignAfterWait, HasKey, HasSystem, RoleOf;
  }

  /** remove_device as one caller sees it. */
  lemma RemoveMeaning(w: World, id: string, d: Device, bridge: bool, saves: Saves)
    requires Sound(w) && IsChosen(w.inventory, Strip(id), d)
    ensures var (after, ok) := RemoveDevice(w, id, bridge, saves);
            var ieee := d.ieee;
            var forbidden :=
              exists e :: e in w.inventory && e.coordinator && (e.ieee == Strip(ieee) || e.name == Strip(ieee));
            var done := bridge && !forbidden;
            && Tidy(after) && after.inventory == w.inventory && OthersKept(w, after, ieee)
            && ok == (done && RoleStored(w, ieee, saves))
            && (if done then RoleOf(after, ieee) == NoRole else after == w)
            && (Sound(after) <==> !(done && StaysOnDisk(w, ieee, saves)))
  {
    ResolveMeaning(w, id);
    assert Resolve(w, id) == Some(d);
    CoordinatorMeans(w.inventory, Strip(d.ieee));
    RemovalMeaning(w, d.ieee, bridge, saves);
    hide IsChosen, RemoveAfterWait, Tidy, Resolve, NamesCoordinator, Strip, RoleOf, HasKey, HasSystem;
  }

  /** What a device is called after a synchronisation. */
  ghost predicate NamesSynced(inventory: seq<Device>, before: World, after: World) {
    forall k :: RoleOf(before, k) != NoRole ==> NameOf(after, k) == SyncedName(inventory, k, NameOf(before, k))
  }

  /** The synchronisation is refused when both system roles would end under one name. */
  predicate SyncClashes(w: World, inventory: seq<Device>) {
    SyncedConfig(inventory, w.configs.supply).name == SyncedConfig(inventory, w.configs.extract).name
  }

  /** Every save that the synchronisation makes succeeds. */
  predicate SyncStored(w: World, inventory: seq<Device>, saves: Saves) {
    && (saves.configs || (SyncedConfig(inventory, w.configs.supply) == w.configs.supply &&
                          SyncedConfig(inventory, w.configs.extract) == w.configs.extract))
    && (saves.other || SyncedEntries(inventory, w.other) == w.other)
  }

  /** A new inventory changes no role, whatever save fails; when it succeeds, every
      registered device that the inventory knows is registered under its name there. */
  lemma SyncMeaning(w: World, inventory: seq<Device>, saves: Saves)
    requires Sound(w) && GoodInventory(inventory)
    ensures var (after, ok) := Sync(w, inventory, saves);
            && Sound(after) && after.inventory == inventory && RolesKept(w, after)
            && (ok <==> !SyncClashes(w, inventory) && SyncStored(w, inventory, saves))
            && (ok ==> NamesSynced(inventory, w, after))
  {
    hide Apply, SaveOther, Sound, RoleOf, NameOf, SyncedEntries, SyncedConfig, SyncedName, SyncClashes, NamesSynced;
    hide GoodInventory;
    var w0 := w.(inventory := inventory);
    InventoryIsApart(w, inventory);
    SyncConfigsMeaning(w0, inventory, saves.configs);
    var (w1, ok1) := SyncedConfigs(w0, inventory, saves.configs);
    SyncedDictKeepsSound(w1, inventory, saves.other);
    if ok1 {
      SyncedTwice(inventory, w0, w1, Sync(w, inventory, saves).0);
    }
  }

  lemma InventoryIsApart(w: World, inventory: seq<Device>)
    requires Sound(w)
    ensures var w0 := w.(inventory := inventory);
            && Sound(w0) && RolesKept(w, w0) && SyncClashes(w0, inventory) == SyncClashes(w, inventory)
            && forall after :: NamesSynced(inventory, w0, after) ==> NamesSynced(inventory, w, after)
  {
    hide SyncedName, Lookup, HasKey, TopicsFit, GoodRegistry, Bootable, HasSystem;
  }

  lemma SyncConfigsMeaning(w: World, inventory: seq<Device>, write: bool)
    requires Sound(w) && GoodInventory(inventory)
    ensures var (after, ok) := SyncedConfigs(w, inventory, write);
            var next := Configs(SyncedConfig(inventory, w.configs.supply), SyncedConfig(inventory, w.configs.extract));
            && Sound(after) && after.inventory == w.inventory && after.other == w.other && RolesKept(w, after)
            && (ok <==> !SyncClashes(w, inventory) && (next == w.configs || write))
            && (ok ==> after.configs == next)
  {
    var configs := Configs(SyncedConfig(inventory, w.configs.supply), SyncedConfig(inventory, w.configs.extract));
    SyncedConfigIsFine(inventory, w.configs.supply);
    SyncedConfigIsFine(inventory, w.configs.extract);
    NewNamesKeepSound(w, configs, write);
    TidyHasRegistry(w);
    RegistryParts(w);
    hide Apply, Tidy, AlmostGood, RoleOf, SyncedConfig, HasKey, HasSystem, HasAddress;
  }

  /** Configurations and dictionary together hold the names of the inventory. */
  lemma SyncedTwice(inventory: seq<Device>, w: World, w1: World, w2: World)
    requires w1.other == w.other && Sound(w)
    requires w1.configs.supply == SyncedConfig(inventory, w.configs.supply)
    requires w1.configs.extract == SyncedConfig(inventory, w.configs.extract)
    requires GoodInventory(inventory)
    requires w2.configs == w1.configs && w2.other == SyncedEntries(inventory, w.other)
    ensures NamesSynced(inventory, w, w2)
  {
    hide TopicsFit, HasKey, SyncedEntries, SyncedName, HasSystem;
    TidyHasRegistry(w);
    RegistryParts(w);
    SyncedConfigStaysAssigned(inventory, w.configs.supply);
    SyncedConfigStaysAssigned(inventory, w.configs.extract);
    forall k ensures Lookup(SyncedEntries(inventory, w.other), k) ==
                     if HasKey(w.other, k) then SyncedName(inventory, k, Lookup(w.other, k)) else "" {
      SyncedLookup(inventory, w.other, k);
    }
    hide Lookup, SyncedConfig, Sound;
  }

  lemma SyncedConfigStaysAssigned(inventory: seq<Device>, c: Config)
    requires GoodInventory(inventory)
    ensures var d := SyncedConfig(inventory, c);
            && (forall k :: Assigns(d, k) <==> Assigns(c, k))
            && (forall k :: Assigns(c, k) ==> d.name == SyncedName(inventory, k, c.name))
  {
    hide IsReserved;
    SyncedConfigIsFine(inventory, c);
    CleanIsNotEmpty();
    hide Clean;
  }

  lemma {:induction false} SyncedLookup(inventory: seq<Device>, d: seq<Entry>, k: string)
    ensures Lookup(SyncedEntries(inventory, d), k) ==
            if HasKey(d, k) then SyncedName(inventory, k, Lookup(d, k)) else ""
    decreases d
  {
    if d != [] {
      var p := SyncedEntries(inventory, d);
      assert p[1..] == SyncedEntries(inventory, d[1..]);
      SyncedLookup(inventory, d[1..], k);
      KeyInHeadOrTail(d, k);
    }
  }

  lemma SyncedConfigIsFine(inventory: seq<Device>, c: Config)
    requires GoodInventory(inventory)
    ensures var d := SyncedConfig(inventory, c);
            d.ieee == c.ieee && (d != c ==> d.ieee.Some? && Clean(d.name) && !IsReserved(d.name))
  {
    hide Clean, IsReserved;
    if IsAssigned(c) {
      InventoryNameIsGood(inventory, c.ieee.value);
    }
  }

  lemma SyncedDictKeepsSound(w: World, inventory: seq<Device>, write: bool)
    requires Sound(w) && GoodInventory(inventory)
    ensures var (after, ok) := SaveOther(w, SyncedEntries(inventory, w.other), write);
            && ok == write && Sound(after) && after.inventory == w.inventory && RolesKept(w, after)
            && after.configs == w.configs && after.other == SyncedEntries(inventory, w.other)
  {
    hide SaveOther, Tidy, HasKey, UniqueKeys, CleanEntries, Clean, IsReserved, SyncedEntries, HasSystem;
    TidyHasRegistry(w);
    RegistryParts(w);
    SyncedIsGood(inventory, w.other);
    SaveOtherKeepsSound(w, SyncedEntries(inventory, w.other), write);
  }

  // ----- starting from a file

  /** A start from such a file succeeds with the registry of the file. */
  lemma BootIsSound(base: string, inventory: seq<Device>, file: File)
    requires Bootable(file)
    ensures var w := Boot(base, inventory, file);
            && w.Some? && Sound(w.value) && w.value.file == file && w.value.inventory == inventory
            && w.value.configs == RuntimeConfigs(file) && w.value.other == file.other
            && w.value.configsSaved && w.value.otherSaved && w.value.journal == []
  {
    CleanFileLoads(file);
    var configs := RuntimeConfigs(file);
    FileIsGood(file);
    GoodFromAlmost(configs, file.other);
    ConfigNamesAreClean(configs, file.other);
    DistinctNamesFit(base, configs);
    hide TopicsFit, SensorsOf, TopicsOf, AvailabilityOf, GoodRegistry, Loaded, RuntimeConfigs, Bootable, Strip;
    hide HasSystem, HasAddress, HasKey;
  }

  // ----- what messages mean

  /** A message belongs to a role exactly when it comes on the topic of the device that has
      it, base/name; its sensor shows that device, and none while the role is free. */
  lemma TopicsNameRoles(w: World, role: Role, topic: string)
    requires Tidy(w)
    ensures w.sensors.Keys == {Supply, Extract}
    ensures var c := if role == Supply then w.configs.supply else w.configs.extract;
            && w.sensors[role] == Sensor(c.name, c.ieee, w.base + "/" + c.name)
            && (topic in w.topics && w.topics[topic] == role <==> topic == w.base + "/" + c.name)
            && (topic in w.availability && w.availability[topic] == role <==>
                  topic == w.base + "/" + c.name + "/availability")
  {
    PlaceholdersAreFine();
    hide Bootable, UpToDate, HasKey, UniqueKeys, CleanEntries, IsReserved, PlaceholderName;
    assert role in w.sensors;
    assert IsInverse(w.sensors, w.topics) && IsAvailabilityInverse(w.sensors, w.availability);
    var c := if role == Supply then w.configs.supply else w.configs.extract;
    assert w.base + "/" + c.name + "/availability" == (w.base + "/" + c.name) + "/availability";
  }

  // ----- reserved names

  lemma UnassignedText()
    ensures Unassigned(Supply) == Config("__unassigned_supply__", None)
    ensures Unassigned(Extract) == Config("__unassigned_extract__", None)
  {
  }

  /** A device that the bridge knows under a reserved name can get two roles: given supply
      and then "other", it keeps both if and only if its name is reserved. */
  lemma ReservedNameKeepsOldRole(w: World, id: string)
    requires Sound(w) && Resolve(w, id).Some?
    requires var d := Resolve(w, id).value;
             !d.coordinator && Clean(d.ieee) && Clean(d.name) &&
             RoleOf(w, d.ieee) == NoRole && d.name != w.configs.extract.name
    requires w.configs.supply == Config("__unassigned_supply__", None)
    ensures var d := Resolve(w, id).value;
            var (w1, ok1) := AssignRole(w, id, System(Supply), true, SAVED);
            var (w2, ok2) := AssignRole(w1, id, Multi, true, SAVED);
            ok1 && ok2 && (OneRoleEach(w2.file) <==> !("__unassigned_" <= d.name))
  {
    var d := Resolve(w, id).value;
    assert w.configs.supply == Unassigned(Supply) by { UnassignedText(); }
    NoRoleNoTrace(w, d.ieee);
    SupplyIsGiven(w, d);
    hide Sound, AssignAfterWait, SnapshotOf, AssignRole, Resolve, OneRoleEach, Clean, HasKey, HasAddress, RoleOf;
    hide IsReserved, CleanFile, UniqueKeys, GoodDict, AssignSystem;
    AssignUnfolds(w, id, d, System(Supply));
    SystemUnfolds(w, d, Supply);
    var w1 := AssignRole(w, id, System(Supply), true, SAVED).0;
    SameInventoryResolves(w, w1, id);
    AssignUnfolds(w1, id, d, Multi);
    if IsReserved(d.name) {
      ReservedGetsBoth(w1, d);
    } else {
      TwoGoalsOneRole(w, d);
    }
  }

  lemma AssignUnfolds(w: World, id: string, d: Device, goal: Goal)
    requires Resolve(w, id) == Some(d) && !d.coordinator && !goal.Unsupported?
    ensures AssignRole(w, id, goal, true, SAVED) ==
            AssignAfterWait(w, d, goal, SnapshotOf(w, d.ieee), true, SAVED)
  {
    hide Resolve, AssignAfterWait, SnapshotOf;
  }

  lemma SystemUnfolds(w: World, d: Device, role: Role)
    ensures AssignAfterWait(w, d, System(role), SnapshotOf(w, d.ieee), true, SAVED) ==
            AssignSystem(w, d, role, SnapshotOf(w, d.ieee), SAVED)
  {
    hide AssignSystem, SnapshotOf;
  }

  /** The reserved name hides the role that "other" should replace. */
  lemma ReservedGetsBoth(w: World, d: Device)
    requires IsReserved(d.name) && Clean(d.ieee) && Clean(d.name)
    requires w.configs.supply == Config(d.name, Some(d.ieee)) && w.configs.extract.ieee != Some(d.ieee)
    requires CleanFile(w.file) && w.file.supply == Some(Entry(d.ieee, d.name)) && GoodDict(w.other)
    ensures var (after, ok) := AssignAfterWait(w, d, Multi, SnapshotOf(w, d.ieee), true, SAVED);
            ok && !OneRoleEach(after.file)
  {
    ReservedIsNotCurrent(w.configs, d.ieee);
    SecondRoleIsWritten(w, d);
    hide SaveOther, CleanFile, GoodDict, Clean, HasKey, OneRoleEach, IsReserved;
  }

  /** With an ordinary name the second role replaces the first. */
  lemma TwoGoalsOneRole(w: World, d: Device)
    requires Sound(w) && GoodDevice(d)
    ensures var w1 := AssignAfterWait(w, d, System(Supply), SnapshotOf(w, d.ieee), true, SAVED).0;
            var (w2, ok) := AssignAfterWait(w1, d, Multi, SnapshotOf(w1, d.ieee), true, SAVED);
            ok && OneRoleEach(w2.file)
  {
    var w1 := AssignAfterWait(w, d, System(Supply), SnapshotOf(w, d.ieee), true, SAVED).0;
    AssignmentMeaning(w, d, System(Supply), true, SAVED);
    hide AssignAfterWait, Tidy, HasKey, HasSystem, RoleOf, NameOf, CoversBut, SlotIsOpen, NameClashes;
    AssignmentMeaning(w1, d, Multi, true, SAVED);
    SoundFileHasOneRoleEach(AssignAfterWait(w1, d, Multi, SnapshotOf(w1, d.ieee), true, SAVED).0);
  }

  lemma SoundFileHasOneRoleEach(w: World)
    requires Sound(w)
    ensures OneRoleEach(w.file)
  {
  }

  /** A device without a role in memory has none on disk either. */
  lemma NoRoleNoTrace(w: World, ieee: string)
    requires Sound(w) && RoleOf(w, ieee) == NoRole
    ensures !HasAddress(w.configs, ieee) && !HasKey(w.other, ieee) && CurrentRole(w.configs, ieee) == None
    ensures !HasSystem(w.file, ieee) && !HasKey(w.file.other, ieee)
  {
    TidyHasRegistry(w);
    RegistryParts(w);
    hide Tidy, HasKey, HasSystem;
  }

  /** The supply role goes to the device whatever its name is. */
  lemma SupplyIsGiven(w: World, d: Device)
    requires Sound(w) && w.configs.supply == Unassigned(Supply)
    requires !HasAddress(w.configs, d.ieee) && !HasKey(w.other, d.ieee) && CurrentRole(w.configs, d.ieee) == None
    requires Clean(d.ieee) && Clean(d.name) && d.name != w.configs.extract.name
    ensures var (w1, ok) := AssignSystem(w, d, Supply, SnapshotOf(w, d.ieee), SAVED);
            && ok && w1.configs.extract.ieee != Some(d.ieee)
            && w1.configs == Configs(Config(d.name, Some(d.ieee)), w.configs.extract)
            && w1.other == w.other && w1.inventory == w.inventory && CleanFile(w1.file) && UniqueKeys(w1.file.other)
            && w1.file.supply == Some(Entry(d.ieee, d.name)) && GoodDict(w1.other)
  {
    CleanStrips();
    TidyHasRegistry(w);
    RegistryParts(w);
    FileIsGood(w.file);
    ConfigNamesAreClean(w.configs, w.other);
    ApplyWrites(w, Configs(Config(d.name, Some(d.ieee)), w.configs.extract), true);
    CleanIsNotEmpty();
    hide TopicsFit, Strip, Clean, HasKey, Bootable, Apply, SensorsOf, TopicsOf, AvailabilityOf, AlmostGood;
    hide HasSystem, HasAddress, UniqueKeys, CleanEntries;
  }

  lemma SameInventoryResolves(v: World, w: World, id: string)
    requires v.inventory == w.inventory
    ensures Resolve(w, id) == Resolve(v, id)
  {
  }

  lemma ReservedIsNotCurrent(given: Configs, ieee: string)
    requires IsReserved(given.supply.name) && given.extract.ieee != Some(ieee)
    ensures CurrentRole(given, ieee) == None
  {
  }

  /** "other" for a device that the snapshot shows without a system role and the file with
      one: the file then gives it both. */
  lemma SecondRoleIsWritten(w: World, d: Device)
    requires CleanFile(w.file) && GoodDict(w.other) && Clean(d.ieee) && Clean(d.name) && HasSystem(w.file, d.ieee)
    ensures var (after, ok) := SaveOther(w, Put(w.other, d.ieee, d.name), true);
            ok && after.journal == w.journal + [after.file] && !OneRoleEach(after.file)
  {
    PutIsGood(w.other, d.ieee, d.name);
    SaveOtherWrites(w, Put(w.other, d.ieee, d.name), true);
    hide SaveOther, CleanFile, GoodDict, HasKey, Clean, UniqueKeys;
  }
}
