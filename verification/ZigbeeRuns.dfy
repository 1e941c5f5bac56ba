/** All callers of the role operations of
    src/ventilation_core/infrastructure/zigbee_managed_monitor.py together with the device
    lists that the bridge sends.  Nothing locks the registry while a caller waits for the
    bridge: assign_role reads it before the wait and writes it afterwards. */
module ZigbeeRuns {
  import opened Common
  import opened ZigbeeRoleStore
  import opened ZigbeeRoles

  datatype Request =
    | ToAssign(id: string, goal: Goal)
    | ToRename(id: string, name: string)
    | ToRemove(id: string)

  /** A caller that waits for the bridge, with what it has read before. */
  datatype Caller =
    | Assigning(d: Device, goal: Goal, seen: Snapshot)
    | Renaming(d: Device, name: string)
    | Removing(d: Device)

  /** answers: whether a call returned, or raised. */
  datatype Hub = Hub(world: World, nextId: nat, waiting: map<nat, Caller>, answers: map<nat, bool>)

  datatype Step =
    | Begin(request: Request)
    | Finish(id: nat, bridge: bool, saves: Saves)
    | Arrive(inventory: seq<Device>, saves: Saves)

  /** The part before the wait; a failure is a call that is answered at once. */
  function Checked(w: World, request: Request): Result<Caller, bool> {
    match Resolve(w, request.id)
    case None => Failure(false)
    case Some(d) =>
      match request
      case ToAssign(_, goal) =>
        if d.coordinator || goal.Unsupported? then Failure(false)
        else Success(Assigning(d, goal, SnapshotOf(w, d.ieee)))
      case ToRename(_, name) =>
        if d.coordinator || !NameAllowed(Strip(name)) then Failure(false)
        else if Strip(name) == d.name then Failure(true)
        else if NameTaken(w.inventory, Strip(name), d.ieee) then Failure(false)
        else Success(Renaming(d, Strip(name)))
      case ToRemove(_) => if NamesCoordinator(w.inventory, Strip(d.ieee)) then Failure(false) else Success(Removing(d))
  }

  /** The part after the wait. */
  function Concluded(w: World, caller: Caller, bridge: bool, saves: Saves): (World, bool) {
    match caller
    case Assigning(d, goal, seen) => AssignAfterWait(w, d, goal, seen, bridge, saves)
    case Renaming(d, name) => RenameAfterWait(w, d.ieee, name, bridge, saves)
    case Removing(d) => RemoveAfterWait(w, d.ieee, bridge, saves)
  }

  function Begun(h: Hub, request: Request): Hub {
    match Checked(h.world, request)
    case Failure(answer) => h.(nextId := h.nextId + 1, answers := h.answers[h.nextId := answer])
    case Success(caller) => h.(nextId := h.nextId + 1, waiting := h.waiting[h.nextId := caller])
  }

  function Finished(h: Hub, id: nat, bridge: bool, saves: Saves): Hub {
    if id !in h.waiting then h
    else
      var (w, ok) := Concluded(h.world, h.waiting[id], bridge, saves);
      h.(world := w, waiting := h.waiting - {id}, answers := h.answers[id := ok])
  }

  function Next(h: Hub, step: Step): Hub {
    match step
    case Begin(request) => Begun(h, request)
    case Finish(id, bridge, saves) => Finished(h, id, bridge, saves)
    case Arrive(inventory, saves) => h.(world := Sync(h.world, inventory, saves).0)
  }

  function Run(h: Hub, steps: seq<Step>): Hub
    decreases steps
  {
    if steps == [] then h else Run(Next(h, steps[0]), steps[1..])
  }

  /** One call from its start to its end. */
  function Call(w: World, request: Request, bridge: bool, saves: Saves): (World, bool) {
    match request
    case ToAssign(id, goal) => AssignRole(w, id, goal, bridge, saves)
    case ToRename(id, name) => RenameDevice(w, id, name, bridge, saves)
    case ToRemove(id) => RemoveDevice(w, id, bridge, saves)
  }

  /** A caller that nobody disturbs does what the whole operation does. */
  lemma UndisturbedCallIsOperation(h: Hub, request: Request, bridge: bool, saves: Saves)
    requires h.nextId !in h.waiting && h.nextId !in h.answers
    ensures var end := Next(Next(h, Begin(request)), Finish(h.nextId, bridge, saves));
            && end.waiting == h.waiting && h.nextId in end.answers
            && (end.world, end.answers[h.nextId]) == Call(h.world, request, bridge, saves)
  {
    hide AssignAfterWait, RenameAfterWait, RemoveAfterWait, Resolve, NameAllowed, NameTaken, NamesCoordinator, Strip;
    hide HasKey, CurrentRole;
    var mid := Next(h, Begin(request));
    if h.nextId in mid.waiting {
      assert mid.waiting - {h.nextId} == h.waiting;
    }
  }

  // ----- the steps that break the invariant

  /** Nothing has changed what the caller has read of the registry. */
  predicate Timely(h: Hub, step: Step) {
    step.Finish? && step.id in h.waiting && h.waiting[step.id].Assigning? ==>
      h.waiting[step.id].seen == SnapshotOf(h.world, h.waiting[step.id].d.ieee)
  }

  /** A save fails that takes a role off the disk. */
  predicate UnluckyEnd(w: World, caller: Caller, bridge: bool, saves: Saves) {
    match caller
    case Assigning(d, goal, _) => Reaches(w, d, goal, bridge) && UnluckyAssignment(w, d, goal, saves)
    case Renaming(_, _) => false
    case Removing(d) => bridge && StaysOnDisk(w, d.ieee, saves)
  }

  predicate Unlucky(h: Hub, step: Step) {
    step.Finish? && step.id in h.waiting && UnluckyEnd(h.world, h.waiting[step.id], step.bridge, step.saves)
  }

  predicate AllTimely(h: Hub, steps: seq<Step>)
    decreases steps
  {
    steps == [] || (Timely(h, steps[0]) && AllTimely(Next(h, steps[0]), steps[1..]))
  }

  predicate Lucky(h: Hub, steps: seq<Step>)
    decreases steps
  {
    steps == [] || (!Unlucky(h, steps[0]) && Lucky(Next(h, steps[0]), steps[1..]))
  }

  // ----- every other step keeps it

  ghost predicate Ready(caller: Caller) {
    match caller
    case Assigning(d, goal, _) => GoodDevice(d) && !goal.Unsupported?
    case Renaming(_, name) => NameAllowed(name)
    case Removing(_) => true
  }

  ghost predicate ReadyHub(h: Hub) {
    && GoodInventory(h.world.inventory)
    && (forall id :: id in h.waiting ==> id < h.nextId && Ready(h.waiting[id]))
    && (forall id :: id in h.answers ==> id < h.nextId)
  }

  ghost predicate SoundHub(h: Hub) {
    Sound(h.world) && ReadyHub(h)
  }

  ghost predicate GoodStep(step: Step) {
    step.Arrive? ==> GoodInventory(step.inventory)
  }

  ghost predicate GoodSteps(steps: seq<Step>) {
    forall s :: s in steps ==> GoodStep(s)
  }

  lemma BeginKeepsSound(h: Hub, request: Request)
    requires SoundHub(h)
    ensures SoundHub(Begun(h, request))
  {
    ResolvedIsGood(h.world.inventory, Strip(request.id));
    hide Sound, GoodInventory, GoodDevice, NameAllowed, NameTaken, Strip, FirstMatch, NamesCoordinator, SnapshotOf;
  }

  /** The end of a call keeps the hub in order, and the invariant unless it is unlucky; then
      one device is on disk with a role and in memory without one. */
  lemma FinishMeaning(h: Hub, id: nat, bridge: bool, saves: Saves)
    requires SoundHub(h) && Timely(h, Finish(id, bridge, saves))
    ensures var after := Finished(h, id, bridge, saves);
            var unlucky := Unlucky(h, Finish(id, bridge, saves));
            && ReadyHub(after) && Tidy(after.world) && (Sound(after.world) <==> !unlucky)
            && (unlucky ==> Haunted(after.world, h.waiting[id].d.ieee))
  {
    if id in h.waiting {
      var w := h.world;
      var caller := h.waiting[id];
      hide Sound, Tidy, GoodInventory, GoodDevice, NameAllowed, AssignAfterWait, RenameAfterWait, RemoveAfterWait;
      hide HasKey, HasSystem, RoleOf, NameOf, SlotIsOpen, NameClashes, CoversBut, Haunted;
      assert Ready(caller);
      match caller
      case Assigning(d, goal, seen) =>
        AssignmentMeaning(w, d, goal, bridge, saves);
        if Unlucky(h, Finish(id, bridge, saves)) {
          UnluckyLeavesNothing(w, d, goal, saves);
          NoRoleIsHaunted(AssignAfterWait(w, d, goal, seen, bridge, saves).0, d.ieee);
        }
      case Renaming(d, name) =>
        AllowedNamesAreGood(name);
        RenamingMeaning(w, d.ieee, name, bridge, saves);
        SoundIsTidy(Finished(h, id, bridge, saves).world);
      case Removing(d) =>
        RemovalMeaning(w, d.ieee, bridge, saves);
        if Unlucky(h, Finish(id, bridge, saves)) {
          NoRoleIsHaunted(RemoveAfterWait(w, d.ieee, bridge, saves).0, d.ieee);
        }
    }
  }

  lemma SoundIsTidy(w: World)
    ensures Sound(w) ==> Tidy(w)
  {
  }

  lemma UnluckyLeavesNothing(w: World, d: Device, goal: Goal, saves: Saves)
    requires Sound(w) && UnluckyAssignment(w, d, goal, saves) && !goal.Unsupported?
    ensures RoleLeft(w, d, goal, saves) == NoRole
  {
    TidyHasRegistry(w);
    RegistryParts(w);
    hide HasKey, HasSystem, Tidy;
  }

  lemma NextMeaning(h: Hub, step: Step)
    requires SoundHub(h) && GoodStep(step) && Timely(h, step)
    ensures var after := Next(h, step);
            && ReadyHub(after) && Tidy(after.world) && (Sound(after.world) <==> !Unlucky(h, step))
            && (Unlucky(h, step) ==> Haunted(after.world, h.waiting[step.id].d.ieee))
  {
    hide Sound, Tidy, GoodInventory, Finished, Begun, Haunted, Ready;
    match step
    case Begin(request) =>
      BeginKeepsSound(h, request);
      SoundIsTidy(Begun(h, request).world);
    case Finish(id, bridge, saves) => FinishMeaning(h, id, bridge, saves);
    case Arrive(inventory, saves) =>
      SyncMeaning(h.world, inventory, saves);
      SoundIsTidy(Next(h, step).world);
      hide Sync;
  }

  /** The same of one call, for its caller. */
  predicate UnluckyCall(w: World, request: Request, bridge: bool, saves: Saves) {
    Checked(w, request).Success? && UnluckyEnd(w, Checked(w, request).value, bridge, saves)
  }

  /** A whole call keeps the invariant if and only if it is not unlucky. */
  lemma CallMeaning(w: World, request: Request, bridge: bool, saves: Saves)
    requires Sound(w) && GoodInventory(w.inventory)
    ensures var after := Call(w, request, bridge, saves).0;
            && GoodInventory(after.inventory) && Tidy(after)
            && (Sound(after) <==> !UnluckyCall(w, request, bridge, saves))
  {
    var h := Hub(w, 0, map[], map[]);
    UndisturbedCallIsOperation(h, request, bridge, saves);
    BeginKeepsSound(h, request);
    CallIsTimely(h, request, bridge, saves);
    hide Sound, Tidy, GoodInventory, Call, Checked, UnluckyEnd, Finished, Haunted, Ready, Timely;
    FinishMeaning(Begun(h, request), 0, bridge, saves);
  }

  lemma CallIsTimely(h: Hub, request: Request, bridge: bool, saves: Saves)
    requires h.nextId !in h.waiting
    ensures Timely(Begun(h, request), Finish(h.nextId, bridge, saves))
  {
    hide SnapshotOf, Resolve, NameAllowed, NameTaken, NamesCoordinator, Strip;
  }

  lemma {:induction false} RunKeepsSound(h: Hub, steps: seq<Step>)
    requires SoundHub(h) && GoodSteps(steps) && AllTimely(h, steps) && Lucky(h, steps)
    ensures SoundHub(Run(h, steps))
    decreases steps
  {
    hide Sound, ReadyHub, GoodStep, Timely, Unlucky, Next;
    if steps != [] {
      assert steps[0] in steps;
      NextMeaning(h, steps[0]);
      RunKeepsSound(Next(h, steps[0]), steps[1..]);
    }
  }

  /** After every such run, failed calls and harmless failed saves included: each half of
      the file is the one in memory as soon as its latest save has succeeded, so that
      loading the file then gives exactly the registry; no device is on disk with a role
      that it lacks in memory; the topic maps are exact inverses; and from every file that
      was written on the way, wherever the run stopped, the program starts with at most one
      role for every device. */
  lemma RolesAreCrashConsistent(h: Hub, steps: seq<Step>)
    requires SoundHub(h) && GoodSteps(steps) && AllTimely(h, steps) && Lucky(h, steps)
    ensures var w := Run(h, steps).world;
            && GoodRegistry(w.configs, w.other)
            && (w.configsSaved && w.otherSaved ==> ReloadsTo(w.file, w.configs, w.other))
            && CoversSystem(w.configs, w.file) && CoversOther(w.other, w.file)
            && IsInverse(w.sensors, w.topics) && IsAvailabilityInverse(w.sensors, w.availability)
            && forall f :: f in w.journal ==> StartsWell(w.base, w.inventory, f)
  {
    RunKeepsSound(h, steps);
    hide Run;
    SoundStarts(Run(h, steps).world);
  }

  /** One role for every device, and a start from the file succeeds. */
  ghost predicate StartsWell(base: string, inventory: seq<Device>, f: File) {
    OneRoleEach(f) && Boot(base, inventory, f).Some? && Sound(Boot(base, inventory, f).value)
  }

  lemma SoundStarts(w: World)
    requires Sound(w)
    ensures w.configsSaved && w.otherSaved ==> ReloadsTo(w.file, w.configs, w.other)
    ensures IsInverse(w.sensors, w.topics) && IsAvailabilityInverse(w.sensors, w.availability)
    ensures forall f :: f in w.journal ==> StartsWell(w.base, w.inventory, f)
  {
    CleanFileLoads(w.file);
    hide Loaded, GoodRegistry, Boot, SensorsOf, RuntimeConfigs, HasSystem, HasKey;
    forall f | f in w.journal ensures StartsWell(w.base, w.inventory, f) {
      BootIsSound(w.base, w.inventory, f);
    }
  }

  // ----- after the unlucky step

  /** Memory has no role for this device, and the file has one. */
  ghost predicate Haunted(w: World, ieee: string) {
    && Tidy(w) && CoversBut(w, ieee) && CurrentRole(w.configs, ieee).None? && !HasKey(w.other, ieee)
    && (HasSystem(w.file, ieee) || HasKey(w.file.other, ieee))
  }

  lemma NoRoleIsHaunted(w: World, ieee: string)
    requires Tidy(w) && !Sound(w) && CoversBut(w, ieee) && RoleOf(w, ieee) == NoRole
    ensures Haunted(w, ieee)
  {
    hide Tidy, HasKey, HasSystem;
  }

  /** The facts about such a world that the proofs below use. */
  lemma HauntedParts(w: World, ieee: string)
    requires Haunted(w, ieee)
    ensures Clean(ieee) && CleanFile(w.file) && GoodDict(w.other) && UniqueKeys(w.file.other)
    ensures !HasAddress(w.configs, ieee)
    ensures AlmostGood(w.configs, w.other) && AlmostGood(w.configs, w.file.other)
  {
    TidyHasRegistry(w);
    RegistryParts(w);
    FileIsGood(w.file);
    AddressesAreClean(w.file, ieee);
    hide HasKey, HasSystem, Clean, CleanFile, CleanEntries, TopicsFit, Bootable, RuntimeConfigs;
    assert w.configs.supply.ieee.Some? ==> HasAddress(w.configs, w.configs.supply.ieee.value);
    assert w.configs.extract.ieee.Some? ==> HasAddress(w.configs, w.configs.extract.ieee.value);
  }

  lemma AddressesAreClean(file: File, ieee: string)
    requires CleanFile(file) && (HasSystem(file, ieee) || HasKey(file.other, ieee))
    ensures Clean(ieee)
  {
    hide Clean;
    if HasKey(file.other, ieee) {
      var i :| 0 <= i < |file.other| && file.other[i].ieee == ieee;
      assert file.other[i] in file.other;
    }
  }

  /** A device list that tells nothing new about the registered devices. */
  ghost predicate Silent(w: World, d: Device) {
    && (forall r :: w.configs.Get(r).ieee == Some(d.ieee) ==> w.configs.Get(r).name == d.name)
    && !HasKey(w.other, d.ieee)
  }

  lemma SilentArrival(w: World, d: Device, saves: Saves)
    requires Silent(w, d)
    ensures Sync(w, [d], saves) == (w.(inventory := [d]), true)
  {
    assert w.configs.Get(Supply) == w.configs.supply && w.configs.Get(Extract) == w.configs.extract;
    assert [d][..0] == [];
    forall k ensures NameInInventory([d], k) == if k == d.ieee then Some(d.name) else None {}
    hide NameInInventory, IsReserved;
    assert SyncedEntries([d], w.other) == w.other;
    hide SyncedEntries;
  }

  /** The device appears alone in the list and is given a goal. */
  function Visit(h: Hub, d: Device, goal: Goal): seq<Step> {
    [Arrive([d], SAVED), Begin(ToAssign(d.ieee, goal)), Finish(h.nextId, true, SAVED)]
  }

  lemma VisitAssigns(h: Hub, d: Device, goal: Goal)
    requires Silent(h.world, d) && GoodDevice(d) && !d.coordinator && !goal.Unsupported?
    ensures var w := h.world.(inventory := [d]);
            var end := Run(h, Visit(h, d, goal));
            && end.world == AssignAfterWait(w, d, goal, SnapshotOf(w, d.ieee), true, SAVED).0
            && AllTimely(h, Visit(h, d, goal)) && WritesSucceed(Visit(h, d, goal)) && GoodSteps(Visit(h, d, goal))
  {
    SilentArrival(h.world, d, SAVED);
    CleanStrips();
    hide Sync, AssignAfterWait, Strip, SnapshotOf, GoodDevice;
    var steps := Visit(h, d, goal);
    var h1 := Next(h, steps[0]);
    var h2 := Next(h1, steps[1]);
    assert FirstMatch([d], d.ieee) == Some(d);
    assert h2 == h1.(nextId := h.nextId + 1,
                     waiting := h.waiting[h.nextId := Assigning(d, goal, SnapshotOf(h1.world, d.ieee))]);
    var h3 := Next(h2, steps[2]);
    RunOfThree(h, steps);
    assert Timely(h, steps[0]) && Timely(h1, steps[1]) && Timely(h2, steps[2]);
    assert GoodInventory([d]);
  }

  lemma RunOfThree(h: Hub, steps: seq<Step>)
    requires |steps| == 3
    ensures var h1 := Next(h, steps[0]);
            var h2 := Next(h1, steps[1]);
            && Run(h, steps) == Next(h2, steps[2])
            && (AllTimely(h, steps) <==> Timely(h, steps[0]) && Timely(h1, steps[1]) && Timely(h2, steps[2]))
  {
    hide Next, Timely;
    var h1 := Next(h, steps[0]);
    var rest, last := steps[1..], steps[2..];
    assert rest[0] == steps[1] && rest[1..] == last && last[0] == steps[2] && last[1..] == [];
    assert Run(h, steps) == Run(h1, rest) == Run(Next(h1, rest[0]), last);
    var h2 := Next(h1, steps[1]);
    assert Run(h2, last) == Run(Next(h2, last[0]), last[1..]);
    assert AllTimely(h1, rest) <==> Timely(h1, rest[0]) && AllTimely(h2, last);
    assert AllTimely(h2, last) <==> Timely(h2, last[0]) && AllTimely(Next(h2, last[0]), last[1..]);
  }

  /** Every save of these steps succeeds. */
  ghost predicate WritesSucceed(steps: seq<Step>) {
    forall s :: s in steps && !s.Begin? ==> s.saves == SAVED
  }

  /** A role left on disk comes back: a few calls, one after another and with every save in
      order, put two roles for the device into the file. */
  lemma HauntedGetsTwoRoles(h: Hub, ieee: string) returns (more: seq<Step>)
    requires Haunted(h.world, ieee)
    ensures AllTimely(h, more) && WritesSucceed(more) && GoodSteps(more)
    ensures !OneRoleEach(Run(h, more).world.file)
    ensures Run(h, more).world.file in Run(h, more).world.journal
  {
    var w := h.world;
    HauntedParts(w, ieee);
    if HasSystem(w.file, ieee) {
      hide HasSystem, CleanFile, GoodDict, Haunted;
      more := OtherIsAdded(h, ieee);
    } else {
      hide Haunted;
      more := SystemIsAdded(h, ieee);
    }
  }

  lemma AnyNameIsGood(ieee: string, name: string)
    requires Clean(ieee) && name in {"a", "b"}
    ensures GoodDevice(Device(ieee, name, false))
  {
  }

  lemma OtherIsAdded(h: Hub, ieee: string) returns (more: seq<Step>)
    requires Haunted(h.world, ieee) && HasSystem(h.world.file, ieee)
    ensures AllTimely(h, more) && WritesSucceed(more) && GoodSteps(more)
    ensures !OneRoleEach(Run(h, more).world.file)
    ensures Run(h, more).world.file in Run(h, more).world.journal
  {
    var d := Device(ieee, "a", false);
    HauntedParts(h.world, ieee);
    AnyNameIsGood(ieee, "a");
    more := Visit(h, d, Multi);
    SecondRoleIsWritten(h.world.(inventory := [d]), d);
    hide HasKey, HasSystem, SaveOther, CleanFile, GoodDict, OneRoleEach, Tidy, CoversBut;
    NotGet(h.world.configs, ieee);
    VisitAssigns(h, d, Multi);
  }

  lemma NotGet(configs: Configs, ieee: string)
    requires !HasAddress(configs, ieee)
    ensures forall r :: configs.Get(r).ieee != Some(ieee)
  {
  }

  lemma SystemIsAdded(h: Hub, ieee: string) returns (more: seq<Step>)
    requires Haunted(h.world, ieee) && HasKey(h.world.file.other, ieee)
    ensures AllTimely(h, more) && WritesSucceed(more) && GoodSteps(more)
    ensures !OneRoleEach(Run(h, more).world.file)
    ensures Run(h, more).world.file in Run(h, more).world.journal
  {
    var w := h.world;
    if w.configs.supply.ieee.None? {
      more := SupplyIsAdded(h, ieee);
    } else {
      var b := Device(w.configs.supply.ieee.value, w.configs.supply.name, false);
      SupplyIsFreed(h, ieee, b);
      var freeing := Visit(h, b, NoRole);
      var giving := SupplyIsAdded(Run(h, freeing), ieee);
      more := freeing + giving;
      RunConcat(h, freeing, giving);
    }
  }

  lemma {:induction false} RunConcat(h: Hub, a: seq<Step>, b: seq<Step>)
    ensures Run(h, a + b) == Run(Run(h, a), b)
    ensures Lucky(h, a + b) <==> Lucky(h, a) && Lucky(Run(h, a), b)
    ensures AllTimely(h, a + b) <==> AllTimely(h, a) && AllTimely(Run(h, a), b)
    decreases a
  {
    hide Next, Unlucky, Timely;
    if a == [] {
      assert a + b == b;
    } else {
      assert (a + b)[1..] == a[1..] + b;
      RunConcat(Next(h, a[0]), a[1..], b);
    }
  }

  /** The holder of the supply role is given none; the device stays haunted. */
  lemma SupplyIsFreed(h: Hub, ieee: string, b: Device)
    requires Haunted(h.world, ieee) && HasKey(h.world.file.other, ieee) && !b.coordinator
    requires h.world.configs.supply == Config(b.name, Some(b.ieee))
    ensures var w1 := Run(h, Visit(h, b, NoRole)).world;
            Haunted(w1, ieee) && HasKey(w1.file.other, ieee) && w1.configs.supply == Unassigned(Supply)
    ensures AllTimely(h, Visit(h, b, NoRole)) && WritesSucceed(Visit(h, b, NoRole)) && GoodSteps(Visit(h, b, NoRole))
  {
    var w := h.world;
    HauntedParts(w, ieee);
    SupplyHolder(w, b);
    VisitAssigns(h, b, NoRole);
    var w0 := w.(inventory := [b]);
    hide Sync, Run, Visit, AllTimely, WritesSucceed, GoodSteps, Tidy, AssignAfterWait, SnapshotOf, HasKey;
    InventoryIsTidy(w, [b]);
    HolderIsReleased(w0, b, ieee);
  }

  lemma HolderIsReleased(w: World, b: Device, ieee: string)
    requires Haunted(w, ieee) && HasKey(w.file.other, ieee)
    requires w.configs.supply == Config(b.name, Some(b.ieee)) && CurrentRole(w.configs, b.ieee) == Some(Supply)
    requires !HasKey(w.other, b.ieee) && w.configs.extract.name != PlaceholderName(Supply)
    ensures var w1 := AssignAfterWait(w, b, NoRole, SnapshotOf(w, b.ieee), true, SAVED).0;
            Haunted(w1, ieee) && HasKey(w1.file.other, ieee) && w1.configs.supply == Unassigned(Supply)
  {
    var configs := w.configs.With(Supply, Unassigned(Supply));
    HauntedParts(w, ieee);
    FreedIsAlmostGood(w.configs, w.other);
    FreedIsAlmostGood(w.configs, w.file.other);
    hide Tidy, Apply, AlmostGood, HasKey, HasSystem, CoversBut, CleanFile, GoodDict, UniqueKeys, Haunted;
    hide PlaceholderName, HasAddress;
    HauntedIsTidy(w, ieee);
    ApplyEffect(w, configs, true);
    FreedIsHaunted(w, Apply(w, configs, true).0, ieee);
  }

  lemma HauntedIsTidy(w: World, ieee: string)
    requires Haunted(w, ieee)
    ensures Tidy(w)
  {
  }

  lemma FreedIsAlmostGood(configs: Configs, other: seq<Entry>)
    requires AlmostGood(configs, other)
    ensures AlmostGood(configs.With(Supply, Unassigned(Supply)), other)
  {
    hide UniqueKeys, CleanEntries, HasKey, PlaceholderName, Clean;
  }

  lemma InventoryIsTidy(w: World, inventory: seq<Device>)
    requires Tidy(w)
    ensures Tidy(w.(inventory := inventory))
  {
    hide TopicsFit, GoodRegistry, Bootable;
  }

  /** The device in the supply slot. */
  lemma SupplyHolder(w: World, b: Device)
    requires Tidy(w) && w.configs.supply == Config(b.name, Some(b.ieee))
    ensures GoodDevice(b) && Silent(w, b) && CurrentRole(w.configs, b.ieee) == Some(Supply)
    ensures w.configs.extract.name != PlaceholderName(Supply)
  {
    TidyHasRegistry(w);
    RegistryParts(w);
    PlaceholdersAreFine();
    hide TopicsFit, HasKey, Clean, PlaceholderName, UniqueKeys, CleanEntries, Bootable;
    assert w.configs.Get(Supply) == w.configs.supply && w.configs.Get(Extract) == w.configs.extract;
    assert HasAddress(w.configs, b.ieee);
  }

  lemma FreedIsHaunted(w: World, after: World, ieee: string)
    requires Haunted(w, ieee) && HasKey(w.file.other, ieee) && Tidy(after)
    requires after.configs == w.configs.With(Supply, Unassigned(Supply)) && after.other == w.other
    requires after.file.other == w.file.other
    requires forall k :: HasSystem(after.file, k) <==> HasAddress(after.configs, k)
    ensures Haunted(after, ieee)
  {
    hide Tidy, HasKey, HasSystem, PlaceholderName;
  }

  /** With a free slot, the device is given the supply role. */
  lemma SupplyIsAdded(h: Hub, ieee: string) returns (more: seq<Step>)
    requires Haunted(h.world, ieee) && HasKey(h.world.file.other, ieee) && h.world.configs.supply.ieee.None?
    ensures AllTimely(h, more) && WritesSucceed(more) && GoodSteps(more)
    ensures !OneRoleEach(Run(h, more).world.file)
    ensures Run(h, more).world.file in Run(h, more).world.journal
  {
    var w := h.world;
    var d := Device(ieee, if w.configs.extract.name == "a" then "b" else "a", false);
    HauntedParts(w, ieee);
    AnyNameIsGood(ieee, d.name);
    NotGet(w.configs, ieee);
    more := Visit(h, d, System(Supply));
    assert Silent(w, d);
    VisitAssigns(h, d, System(Supply));
    RecordIsDoubled(w.(inventory := [d]), d);
    hide *;
  }

  lemma RecordIsDoubled(w: World, d: Device)
    requires CleanFile(w.file) && UniqueKeys(w.file.other) && HasKey(w.file.other, d.ieee) && GoodDevice(d)
    requires AlmostGood(w.configs, w.other) && w.configs.supply.ieee.None? && d.name != w.configs.extract.name
    requires CurrentRole(w.configs, d.ieee).None? && !HasKey(w.other, d.ieee)
    ensures var after := AssignAfterWait(w, d, System(Supply), SnapshotOf(w, d.ieee), true, SAVED).0;
            !OneRoleEach(after.file) && after.file in after.journal
  {
    CleanStrips();
    CleanIsNotEmpty();
    ConfigNamesAreClean(w.configs, w.other);
    ApplyWrites(w, Configs(Config(d.name, Some(d.ieee)), w.configs.extract), true);
    hide Apply, Clean, Strip, HasKey, UniqueKeys, CleanEntries, CleanFile, SensorsOf, TopicsOf, AvailabilityOf;
  }

  /** The shortest way there: the role of a device is taken away, the save fails, and the
      operator then sets "other".  The second call succeeds and writes both roles. */
  lemma FailedReleaseThenOther(w: World, id: string, bridge: bool, other: bool)
    requires Sound(w) && GoodInventory(w.inventory) && Resolve(w, id).Some?
    requires !Resolve(w, id).value.coordinator && HasSystem(w.file, Resolve(w, id).value.ieee)
    ensures var (w1, ok1) := AssignRole(w, id, NoRole, bridge, Saves(false, other));
            var (w2, ok2) := AssignRole(w1, id, Multi, true, SAVED);
            !ok1 && ok2 && !OneRoleEach(w2.file)
  {
    var d := Resolve(w, id).value;
    ResolvedIsGood(w.inventory, Strip(id));
    hide Sound, AssignAfterWait, SnapshotOf, Resolve, HasSystem, CleanFile, GoodDict, OneRoleEach, Strip, Clean;
    FailedRelease(w, d, bridge, other);
    var w1 := AssignAfterWait(w, d, NoRole, SnapshotOf(w, d.ieee), bridge, Saves(false, other)).0;
    OtherOnTop(w1, d);
    SameInventoryResolves(w, w1, id);
  }

  /** The save fails: the role is gone from memory and still on disk. */
  lemma FailedRelease(w: World, d: Device, bridge: bool, other: bool)
    requires Sound(w) && HasSystem(w.file, d.ieee)
    ensures var (w1, ok) := AssignAfterWait(w, d, NoRole, SnapshotOf(w, d.ieee), bridge, Saves(false, other));
            && !ok && w1.inventory == w.inventory && w1.file == w.file && CurrentRole(w1.configs, d.ieee).None?
            && CleanFile(w1.file) && GoodDict(w1.other)
  {
    TidyHasRegistry(w);
    RegistryParts(w);
    FileIsGood(w.file);
    ReleaseKeepsSound(w, d.ieee, false);
    NoAddressNoRole(Released(w, SnapshotOf(w, d.ieee), false).0.configs, d.ieee);
    hide Tidy, AssignAfterWait, Released, HasKey, HasSystem, HasAddress, CleanFile, GoodDict, SnapshotOf, Bootable;
    FailedReleaseEnds(w, d, SnapshotOf(w, d.ieee), bridge, other);
    RegistryIsDict(w);
  }

  lemma RegistryIsDict(w: World)
    requires Tidy(w)
    ensures GoodDict(w.other) && Bootable(w.file)
  {
    RegistryParts(w);
    hide TopicsFit, GoodDict, GoodRegistry, Bootable;
  }

  lemma FailedReleaseEnds(w: World, d: Device, seen: Snapshot, bridge: bool, other: bool)
    requires !Released(w, seen, false).1
    ensures AssignAfterWait(w, d, NoRole, seen, bridge, Saves(false, other)) == Released(w, seen, false)
  {
    hide Released, SaveOther;
  }

  lemma OtherOnTop(w: World, d: Device)
    requires CleanFile(w.file) && GoodDict(w.other) && GoodDevice(d) && HasSystem(w.file, d.ieee)
    requires CurrentRole(w.configs, d.ieee).None?
    ensures var (after, ok) := AssignAfterWait(w, d, Multi, SnapshotOf(w, d.ieee), true, SAVED);
            ok && !OneRoleEach(after.file)
  {
    SecondRoleIsWritten(w, d);
    hide SaveOther, CleanFile, GoodDict, Clean, HasSystem, HasKey, OneRoleEach;
  }

  lemma NoAddressNoRole(configs: Configs, ieee: string)
    requires !HasAddress(configs, ieee)
    ensures CurrentRole(configs, ieee).None?
  {
  }

  // ----- the condition is exact

  /** However a run goes on from any of its points, as long as every save then succeeds and
      no caller is overtaken, no file has two roles for a device. */
  ghost predicate StaysConsistent(h: Hub, steps: seq<Step>) {
    forall n: nat, more: seq<Step> ::
      n <= |steps| && WritesSucceed(more) && GoodSteps(more) && AllTimely(Run(h, steps[..n]), more) ==>
        Consistent(Run(h, steps[..n] + more).world)
  }

  ghost predicate Consistent(w: World) {
    forall f :: f in w.journal ==> OneRoleEach(f)
  }

  /** That holds exactly for the runs without a failed save that takes a role off the disk. */
  lemma ConsistentExactlyWhenLucky(h: Hub, steps: seq<Step>)
    requires SoundHub(h) && GoodSteps(steps) && AllTimely(h, steps)
    ensures Lucky(h, steps) <==> StaysConsistent(h, steps)
  {
    if Lucky(h, steps) {
      forall n: nat, more: seq<Step> |
        n <= |steps| && WritesSucceed(more) && GoodSteps(more) && AllTimely(Run(h, steps[..n]), more)
        ensures Consistent(Run(h, steps[..n] + more).world)
      {
        LuckyGoesOn(h, steps, n, more);
      }
    } else {
      UnluckyIsNotConsistent(h, steps);
    }
  }

  lemma LuckyGoesOn(h: Hub, steps: seq<Step>, n: nat, more: seq<Step>)
    requires SoundHub(h) && GoodSteps(steps) && AllTimely(h, steps) && Lucky(h, steps)
    requires n <= |steps| && WritesSucceed(more) && GoodSteps(more) && AllTimely(Run(h, steps[..n]), more)
    ensures Consistent(Run(h, steps[..n] + more).world)
  {
    assert steps == steps[..n] + steps[n..];
    RunConcat(h, steps[..n], steps[n..]);
    RunConcat(h, steps[..n], more);
    assert GoodSteps(steps[..n]);
    hide GoodSteps, SoundHub, Run, AllTimely, Lucky;
    SuccessIsLucky(Run(h, steps[..n]), more);
    assert GoodSteps(steps[..n] + more) by { GoodConcat(steps[..n], more); }
    RunKeepsSound(h, steps[..n] + more);
    SoundIsConsistent(Run(h, steps[..n] + more));
  }

  lemma GoodConcat(a: seq<Step>, b: seq<Step>)
    requires GoodSteps(a) && GoodSteps(b)
    ensures GoodSteps(a + b)
  {
    hide GoodStep;
  }

  lemma SoundIsConsistent(h: Hub)
    requires SoundHub(h)
    ensures Consistent(h.world)
  {
  }

  lemma {:induction false} SuccessIsLucky(h: Hub, steps: seq<Step>)
    requires WritesSucceed(steps)
    ensures Lucky(h, steps)
    decreases steps
  {
    if steps != [] {
      assert steps[0] in steps;
      assert !Unlucky(h, steps[0]);
      hide Next, Unlucky;
      SuccessIsLucky(Next(h, steps[0]), steps[1..]);
    }
  }

  lemma {:induction false} FirstUnlucky(h: Hub, steps: seq<Step>) returns (k: nat)
    requires !Lucky(h, steps)
    ensures k < |steps| && Lucky(h, steps[..k]) && Unlucky(Run(h, steps[..k]), steps[k])
    decreases steps
  {
    hide Next, Unlucky;
    if Unlucky(h, steps[0]) {
      k := 0;
      assert steps[..0] == [];
    } else {
      var j := FirstUnlucky(Next(h, steps[0]), steps[1..]);
      k := j + 1;
      assert steps[..k] == [steps[0]] + steps[1..][..j];
      assert steps[..k][1..] == steps[1..][..j];
    }
  }

  lemma UnluckyIsNotConsistent(h: Hub, steps: seq<Step>)
    requires SoundHub(h) && GoodSteps(steps) && AllTimely(h, steps) && !Lucky(h, steps)
    ensures !StaysConsistent(h, steps)
  {
    hide *;
    var k, ieee := FirstHaunting(h, steps);
    var after := Run(h, steps[..k + 1]);
    var more := HauntedGetsTwoRoles(after, ieee);
    RunConcat(h, steps[..k + 1], more);
    NotConsistent(Run(after, more).world);
    NotStaying(h, steps, k + 1, more);
  }

  lemma NotConsistent(w: World)
    requires w.file in w.journal && !OneRoleEach(w.file)
    ensures !Consistent(w)
  {
  }

  lemma NotStaying(h: Hub, steps: seq<Step>, n: nat, more: seq<Step>)
    requires n <= |steps| && WritesSucceed(more) && GoodSteps(more) && AllTimely(Run(h, steps[..n]), more)
    requires !Consistent(Run(h, steps[..n] + more).world)
    ensures !StaysConsistent(h, steps)
  {
    hide Run, AllTimely, WritesSucceed, GoodSteps, Consistent;
  }

  /** The first unlucky step of a run haunts a device. */
  lemma FirstHaunting(h: Hub, steps: seq<Step>) returns (k: nat, ieee: string)
    requires SoundHub(h) && GoodSteps(steps) && AllTimely(h, steps) && !Lucky(h, steps)
    ensures k < |steps| && Haunted(Run(h, steps[..k + 1]).world, ieee)
  {
    hide SoundHub, Next, Unlucky, Timely, GoodStep, Haunted;
    k := FirstUnlucky(h, steps);
    var front := steps[..k];
    assert steps == front + steps[k..];
    RunConcat(h, front, steps[k..]);
    assert GoodSteps(front) && steps[k] in steps;
    RunKeepsSound(h, front);
    var mid := Run(h, front);
    assert Timely(mid, steps[k]);
    NextMeaning(mid, steps[k]);
    assert steps[..k + 1] == front + [steps[k]] && [steps[k]][1..] == [];
    RunConcat(h, front, [steps[k]]);
    ieee := HauntedDevice(mid, steps[k]);
  }

  lemma HauntedDevice(h: Hub, step: Step) returns (ieee: string)
    requires SoundHub(h) && GoodStep(step) && Timely(h, step) && Unlucky(h, step)
    ensures Haunted(Next(h, step).world, ieee)
  {
    NextMeaning(h, step);
    hide SoundHub, Timely, GoodStep, Haunted, Next;
    ieee := h.waiting[step.id].d.ieee;
  }

  // ----- callers that overtake each other

  lemma RunOfFour(h: Hub, steps: seq<Step>)
    requires |steps| == 4
    ensures Run(h, steps) == Next(Next(Next(Next(h, steps[0]), steps[1]), steps[2]), steps[3])
  {
    hide Next;
    RunOfThree(Next(h, steps[0]), steps[1..]);
  }

  /** Two callers begin and then end in the same order, with every save in order. */
  function Overlap(h: Hub, first: Request, second: Request): seq<Step> {
    [Begin(first), Begin(second), Finish(h.nextId, true, SAVED), Finish(h.nextId + 1, true, SAVED)]
  }

  /** Both read the registry before either writes it. */
  lemma OverlapUnfolds(h: Hub, first: Request, second: Request)
    requires Checked(h.world, first).Success? && Checked(h.world, second).Success?
    ensures var (w1, ok1) := Concluded(h.world, Checked(h.world, first).value, true, SAVED);
            var (w2, ok2) := Concluded(w1, Checked(h.world, second).value, true, SAVED);
            var end := Run(h, Overlap(h, first, second));
            && end.world == w2 && h.nextId in end.answers && h.nextId + 1 in end.answers
            && end.answers[h.nextId] == ok1 && end.answers[h.nextId + 1] == ok2
  {
    hide Next, Checked, Concluded, Run;
    var n := h.nextId;
    var c1, c2 := Checked(h.world, first).value, Checked(h.world, second).value;
    RunOfFour(h, Overlap(h, first, second));
    BeginAdmits(h, first);
    var h1 := Next(h, Begin(first));
    BeginAdmits(h1, second);
    var h2 := Next(h1, Begin(second));
    FinishConcludes(h2, n, c1);
    var h3 := Next(h2, Finish(n, true, SAVED));
    FinishConcludes(h3, n + 1, c2);
  }

  lemma BeginAdmits(h: Hub, request: Request)
    requires Checked(h.world, request).Success?
    ensures Next(h, Begin(request)) ==
            h.(nextId := h.nextId + 1, waiting := h.waiting[h.nextId := Checked(h.world, request).value])
  {
    hide Checked;
  }

  lemma FinishConcludes(h: Hub, id: nat, caller: Caller)
    requires id in h.waiting && h.waiting[id] == caller
    ensures var (w, ok) := Concluded(h.world, caller, true, SAVED);
            Next(h, Finish(id, true, SAVED)) ==
            h.(world := w, waiting := h.waiting - {id}, answers := h.answers[id := ok])
  {
    hide Concluded;
  }

  /** "other" finished on a snapshot without a system role, whatever has happened since: the
      file then has two roles for the device if and only if it has got a system role. */
  lemma StaleOther(w: World, d: Device, seen: Snapshot)
    requires Sound(w) && Clean(d.ieee) && Clean(d.name) && seen.current.None?
    ensures var (after, ok) := AssignAfterWait(w, d, Multi, seen, true, SAVED);
            ok && (OneRoleEach(after.file) <==> !HasSystem(w.file, d.ieee))
  {
    TidyHasRegistry(w);
    RegistryParts(w);
    FileIsGood(w.file);
    if HasSystem(w.file, d.ieee) {
      SecondRoleIsWritten(w, d);
    } else {
      PutIsGood(w.other, d.ieee, d.name);
      SaveOtherWrites(w, Put(w.other, d.ieee, d.name), true);
      DictIsUnique(Put(w.other, d.ieee, d.name));
    }
    hide SaveOther, HasKey, Clean, CleanFile, GoodDict, CleanEntries, UniqueKeys, TopicsFit, RuntimeConfigs;
  }

  lemma DictIsUnique(d: seq<Entry>)
    requires GoodDict(d)
    ensures UniqueKeys(d)
  {
  }

  /** One device, two callers: supply and "other".  Both calls succeed, and the file has
      both roles. */
  lemma OverlapWritesTwoRoles(h: Hub, id: string)
    requires SoundHub(h) && Resolve(h.world, id).Some?
    requires var d := Resolve(h.world, id).value;
             !d.coordinator && RoleOf(h.world, d.ieee) == NoRole && d.name != h.world.configs.extract.name
    requires h.world.configs.supply.ieee.None?
    ensures var end := Run(h, Overlap(h, ToAssign(id, System(Supply)), ToAssign(id, Multi)));
            && h.nextId in end.answers && end.answers[h.nextId]
            && h.nextId + 1 in end.answers && end.answers[h.nextId + 1]
            && !OneRoleEach(end.world.file)
  {
    var w := h.world;
    var d := Resolve(w, id).value;
    ResolvedIsGood(w.inventory, Strip(id));
    NoRoleNoTrace(w, d.ieee);
    OverlapUnfolds(h, ToAssign(id, System(Supply)), ToAssign(id, Multi));
    SupplyIsWritten(w, d);
    hide Sound, AssignAfterWait, Resolve, Overlap, OneRoleEach, Clean, HasSystem, HasKey, RoleOf;
    StaleOther(AssignAfterWait(w, d, System(Supply), SnapshotOf(w, d.ieee), true, SAVED).0, d, SnapshotOf(w, d.ieee));
  }

  lemma SupplyIsWritten(w: World, d: Device)
    requires Sound(w) && GoodDevice(d) && !HasAddress(w.configs, d.ieee) && !HasKey(w.other, d.ieee)
    requires w.configs.supply.ieee.None? && d.name != w.configs.extract.name
    ensures var (after, ok) := AssignAfterWait(w, d, System(Supply), SnapshotOf(w, d.ieee), true, SAVED);
            && ok && Sound(after) && HasSystem(after.file, d.ieee)
            && after.configs == w.configs.(supply := Config(d.name, Some(d.ieee))) && after.other == w.other
  {
    TidyHasRegistry(w);
    RegistryParts(w);
    FileIsGood(w.file);
    CleanStrips();
    CleanIsNotEmpty();
    ConfigNamesAreClean(w.configs, w.other);
    AssignmentMeaning(w, d, System(Supply), true, SAVED);
    ApplyWrites(w, Configs(Config(d.name, Some(d.ieee)), w.configs.extract), true);
    hide Apply, Tidy, Clean, Strip, HasKey, UniqueKeys, CleanEntries, CleanFile, SensorsOf, TopicsOf, AvailabilityOf;
    hide RoleOf, NameOf, CoversBut;
  }

  /** Two devices, two callers: supply for one, extract for the other.  Both calls succeed,
      and the first device has no role, in memory and on disk. */
  lemma OverlapLosesRole(h: Hub, a: string, b: string)
    requires SoundHub(h) && Resolve(h.world, a).Some? && Resolve(h.world, b).Some?
    requires var d, e := Resolve(h.world, a).value, Resolve(h.world, b).value;
             && d.ieee != e.ieee && !d.coordinator && !e.coordinator
             && RoleOf(h.world, d.ieee) == NoRole && RoleOf(h.world, e.ieee) == NoRole
    requires h.world.configs == Configs(Unassigned(Supply), Unassigned(Extract))
    ensures var end := Run(h, Overlap(h, ToAssign(a, System(Supply)), ToAssign(b, System(Extract))));
            && h.nextId in end.answers && end.answers[h.nextId]
            && h.nextId + 1 in end.answers && end.answers[h.nextId + 1]
            && RoleOf(end.world, Resolve(h.world, a).value.ieee) == NoRole
            && !HasSystem(end.world.file, Resolve(h.world, a).value.ieee)
            && RoleOf(end.world, Resolve(h.world, b).value.ieee) == System(Extract)
  {
    var w := h.world;
    var d, e := Resolve(w, a).value, Resolve(w, b).value;
    ResolvedIsGood(w.inventory, Strip(a));
    ResolvedIsGood(w.inventory, Strip(b));
    NoRoleNoTrace(w, d.ieee);
    NoRoleNoTrace(w, e.ieee);
    OverlapUnfolds(h, ToAssign(a, System(Supply)), ToAssign(b, System(Extract)));
    PlaceholdersAreFine();
    assert d.name != PlaceholderName(Extract) && e.name != PlaceholderName(Supply);
    SupplyIsWritten(w, d);
    hide Sound, AssignAfterWait, Resolve, Overlap, Clean, HasSystem, HasKey, RoleOf, PlaceholderName, IsReserved;
    var w1 := AssignAfterWait(w, d, System(Supply), SnapshotOf(w, d.ieee), true, SAVED).0;
    ExtractOverwrites(w1, SnapshotOf(w, e.ieee), d, e);
  }

  /** The second caller writes the configurations that it has read before the first one. */
  lemma ExtractOverwrites(w: World, seen: Snapshot, d: Device, e: Device)
    requires Sound(w) && GoodDevice(e) && d.ieee != e.ieee && e.name != PlaceholderName(Supply)
    requires seen == Snapshot(Configs(Unassigned(Supply), Unassigned(Extract)), None, false) && !HasKey(w.other, d.ieee)
    ensures var (after, ok) := AssignAfterWait(w, e, System(Extract), seen, true, SAVED);
            && ok && RoleOf(after, d.ieee) == NoRole && !HasSystem(after.file, d.ieee)
            && RoleOf(after, e.ieee) == System(Extract)
  {
    FileIsGood(w.file);
    CleanStrips();
    CleanIsNotEmpty();
    PlaceholdersAreFine();
    ApplyWrites(w, Configs(Unassigned(Supply), Config(e.name, Some(e.ieee))), true);
    hide Apply, Tidy, Clean, Strip, HasKey, UniqueKeys, CleanEntries, CleanFile, SensorsOf, TopicsOf, AvailabilityOf;
    hide PlaceholderName;
  }
}
