/** The persistent registry of Zigbee roles, from
    src/ventilation_core/infrastructure/zigbee_role_store.py.  The file is a value that
    every save replaces at once, or leaves as it is when it raises. */
module ZigbeeRoleStore {
  import opened Common

  datatype Role = Supply | Extract

  const PREFIX := "__unassigned_"

  function RoleName(role: Role): string {
    if role.Supply? then "supply" else "extract"
  }

  function PlaceholderName(role: Role): string {
    PREFIX + RoleName(role) + "__"
  }

  predicate IsReserved(name: string) {
    PREFIX <= name
  }

  /** A device configuration of one system role. */
  datatype Config = Config(name: string, ieee: Option<string>)

  datatype Configs = Configs(supply: Config, extract: Config)
  {
    function Get(role: Role): Config {
      if role.Supply? then supply else extract
    }

    function With(role: Role, c: Config): Configs {
      if role.Supply? then this.(supply := c) else this.(extract := c)
    }
  }

  function Unassigned(role: Role): Config {
    Config(PlaceholderName(role), None)
  }

  /** A stored record; the list of multi-device records keeps the order of a dictionary. */
  datatype Entry = Entry(ieee: string, name: string)

  datatype File = File(supply: Option<Entry>, extract: Option<Entry>, other: seq<Entry>)

  // ----- str.strip

  /** The white space that strip removes. */
  predicate IsSpace(c: char) {
    var n := c as int;
    9 <= n <= 13 || 28 <= n <= 32 || n == 0x85 || n == 0xA0 || n == 0x1680 || 0x2000 <= n <= 0x200A ||
    n == 0x2028 || n == 0x2029 || n == 0x202F || n == 0x205F || n == 0x3000
  }

  function Strip(s: string): string
    decreases |s|
  {
    if s != "" && IsSpace(s[0]) then Strip(s[1..])
    else if s != "" && IsSpace(s[|s| - 1]) then Strip(s[..|s| - 1])
    else s
  }

  /** Not empty, and unchanged by strip. */
  predicate Clean(s: string) {
    s != "" && !IsSpace(s[0]) && !IsSpace(s[|s| - 1])
  }

  predicate AllSpace(s: string) {
    forall i :: 0 <= i < |s| ==> IsSpace(s[i])
  }

  /** strip takes white space off both ends and nothing else, and leaves none there. */
  lemma {:induction false} StripMeaning(s: string) returns (before: string, after: string)
    ensures s == before + Strip(s) + after && AllSpace(before) && AllSpace(after)
    ensures Strip(s) == "" || Clean(Strip(s))
    decreases |s|
  {
    hide IsSpace;
    if s != "" && IsSpace(s[0]) {
      before, after := StripMeaning(s[1..]);
      before := [s[0]] + before;
      assert s == [s[0]] + s[1..];
    } else if s != "" && IsSpace(s[|s| - 1]) {
      before, after := StripMeaning(s[..|s| - 1]);
      after := after + [s[|s| - 1]];
      assert s == s[..|s| - 1] + [s[|s| - 1]];
    } else {
      before, after := "", "";
      assert s == "" + s + "";
    }
  }

  predicate CleanEntry(e: Entry) {
    Clean(e.ieee) && Clean(e.name)
  }

  // ----- saving

  function RecordOf(c: Config): Option<Entry> {
    if c.ieee.Some? && c.ieee.value != "" && c.name != "" then Some(Entry(c.ieee.value, c.name)) else None
  }

  predicate HasKey(d: seq<Entry>, ieee: string) {
    exists i :: 0 <= i < |d| && d[i].ieee == ieee
  }

  /** The first assigned record of every address. */
  function FirstOfEach(d: seq<Entry>): seq<Entry>
    decreases |d|
  {
    if d == [] then []
    else
      var front, last := FirstOfEach(d[..|d| - 1]), d[|d| - 1];
      if last.ieee == "" || last.name == "" || HasKey(front, last.ieee) then front else front + [last]
  }

  function Written(configs: Configs, other: seq<Entry>): File {
    File(RecordOf(configs.supply), RecordOf(configs.extract), FirstOfEach(other))
  }

  // ----- loading

  function LoadedEntry(e: Entry): Option<Entry> {
    var ieee, name := Strip(e.ieee), Strip(e.name);
    if ieee == "" || name == "" then None else Some(Entry(ieee, name))
  }

  function LoadedEntries(d: seq<Entry>): Option<seq<Entry>>
    decreases |d|
  {
    if d == [] then Some([])
    else
      match (LoadedEntries(d[..|d| - 1]), LoadedEntry(d[|d| - 1]))
      case (Some(front), Some(e)) => Some(front + [e])
      case _ => None
  }

  function LoadedRecord(r: Option<Entry>): Option<Option<Entry>> {
    match r
    case None => Some(None)
    case Some(e) => (match LoadedEntry(e) case None => None case Some(f) => Some(Some(f)))
  }

  /** _load_bundle; None stands for the ValueError of an entry without content. */
  function Loaded(file: File): Option<File> {
    match (LoadedRecord(file.supply), LoadedRecord(file.extract), LoadedEntries(file.other))
    case (Some(supply), Some(extract), Some(other)) => Some(File(supply, extract, other))
    case _ => None
  }

  function RuntimeConfig(role: Role, r: Option<Entry>): Config {
    if r.Some? && r.value.ieee != "" && r.value.name != "" then Config(r.value.name, Some(r.value.ieee))
    else Unassigned(role)
  }

  function RuntimeConfigs(file: File): Configs {
    Configs(RuntimeConfig(Supply, file.supply), RuntimeConfig(Extract, file.extract))
  }

  function SavedConfigs(file: File, configs: Configs): Option<File> {
    match Loaded(file)
    case None => None
    case Some(bundle) => Some(Written(configs, bundle.other))
  }

  function SavedOther(file: File, other: seq<Entry>): Option<File> {
    match Loaded(file)
    case None => None
    case Some(bundle) => Some(Written(RuntimeConfigs(bundle), other))
  }

  // ----- what a file means

  ghost predicate UniqueKeys(d: seq<Entry>) {
    forall i, j :: 0 <= i < j < |d| ==> d[i].ieee != d[j].ieee
  }

  ghost predicate CleanEntries(d: seq<Entry>) {
    forall e :: e in d ==> CleanEntry(e)
  }

  /** No address has more than one role. */
  ghost predicate OneRoleEach(file: File) {
    && UniqueKeys(file.other)
    && (file.supply.Some? && file.extract.Some? ==> file.supply.value.ieee != file.extract.value.ieee)
    && (file.supply.Some? ==> !HasKey(file.other, file.supply.value.ieee))
    && (file.extract.Some? ==> !HasKey(file.other, file.extract.value.ieee))
  }

  ghost predicate CleanFile(file: File) {
    && (file.supply.Some? ==> CleanEntry(file.supply.value))
    && (file.extract.Some? ==> CleanEntry(file.extract.value))
    && CleanEntries(file.other)
  }

  // ----- round trips

  lemma CleanLoads(e: Entry)
    requires CleanEntry(e)
    ensures LoadedEntry(e) == Some(e)
  {
  }

  lemma {:induction false} CleanEntriesLoad(d: seq<Entry>)
    requires CleanEntries(d)
    ensures LoadedEntries(d) == Some(d)
    decreases |d|
  {
    if d != [] {
      hide LoadedEntry;
      var front, last := d[..|d| - 1], d[|d| - 1];
      assert last in d && d == front + [last];
      CleanLoads(last);
      CleanEntriesLoad(front);
    }
  }

  /** Loading a clean file gives it back. */
  lemma CleanFileLoads(file: File)
    requires CleanFile(file)
    ensures Loaded(file) == Some(file)
  {
    hide LoadedEntry;
    if file.supply.Some? { CleanLoads(file.supply.value); }
    if file.extract.Some? { CleanLoads(file.extract.value); }
    CleanEntriesLoad(file.other);
  }

  /** Records with unique addresses are written as they are. */
  lemma {:induction false} UniqueRecordsAreKept(d: seq<Entry>)
    requires UniqueKeys(d) && CleanEntries(d)
    ensures FirstOfEach(d) == d
    decreases |d|
  {
    if d != [] {
      var front, last := d[..|d| - 1], d[|d| - 1];
      assert last in d && d == front + [last];
      UniqueRecordsAreKept(front);
    }
  }

  /** Whatever is written has unique addresses. */
  lemma {:induction false} WrittenKeysAreUnique(d: seq<Entry>)
    ensures UniqueKeys(FirstOfEach(d))
    ensures forall e :: e in FirstOfEach(d) ==> e in d && e.ieee != "" && e.name != ""
    decreases |d|
  {
    if d != [] {
      WrittenKeysAreUnique(d[..|d| - 1]);
    }
  }

  ghost predicate Proper(role: Role, c: Config) {
    match c.ieee
    case None => c == Unassigned(role)
    case Some(ieee) => Clean(ieee) && Clean(c.name)
  }

  ghost predicate ProperConfigs(configs: Configs) {
    Proper(Supply, configs.supply) && Proper(Extract, configs.extract)
  }

  /** What is saved comes back: both configurations and all other records. */
  lemma SavedComesBack(configs: Configs, other: seq<Entry>)
    requires ProperConfigs(configs) && UniqueKeys(other) && CleanEntries(other)
    ensures var file := Written(configs, other);
            && CleanFile(file)
            && Loaded(file) == Some(file)
            && RuntimeConfigs(file) == configs && file.other == other
  {
    UniqueRecordsAreKept(other);
    hide FirstOfEach, Clean, CleanEntries;
    assert ProperConfigs(configs);
    CleanIsNotEmpty();
    CleanFileLoads(Written(configs, other));
  }

  lemma CleanIsNotEmpty()
    ensures forall s :: Clean(s) ==> s != ""
  {
  }

  // ----- the object

  class RoleStore {
    var file: File
    ghost var journal: seq<File>

    constructor (file: File)
      ensures this.file == file && journal == []
    {
      this.file, journal := file, [];
    }

    method LoadEntry(e: Entry) returns (r: Option<Entry>)
      ensures r == LoadedEntry(e)
    {
      var ieee, name := Strip(e.ieee), Strip(e.name);
      if ieee == "" || name == "" {
        return None;
      }
      return Some(Entry(ieee, name));
    }

    method LoadBundle() returns (r: Option<File>)
      ensures r == Loaded(file)
    {
      hide LoadedEntry;
      var supply, extract: Option<Entry> := None, None;
      match file.supply {
        case None =>
        case Some(e) =>
          supply := LoadEntry(e);
          if supply.None? { return None; }
      }
      match file.extract {
        case None =>
        case Some(e) =>
          extract := LoadEntry(e);
          if extract.None? { return None; }
      }
      var other: seq<Entry> := [];
      var i := 0;
      while i < |file.other|
        invariant 0 <= i <= |file.other|
        invariant LoadedEntries(file.other[..i]) == Some(other)
      {
        var e := LoadEntry(file.other[i]);
        assert file.other[..i + 1][..i] == file.other[..i];
        match e {
          case None =>
            OneBadEntryFails(file.other, i);
            return None;
          case Some(entry) => other := other + [entry];
        }
        i := i + 1;
      }
      assert file.other[..i] == file.other;
      return Some(File(supply, extract, other));
    }

    /** save_records: builds the list without repeated addresses and replaces the file,
        unless writing the new one or putting it in place raises. */
    method SaveAssignments(configs: Configs, other: seq<Entry>, write: bool) returns (ok: bool)
      modifies this
      ensures ok == write
      ensures ok ==> file == Written(configs, other) && journal == old(journal) + [file] && UniqueKeys(file.other)
      ensures !ok ==> file == old(file) && journal == old(journal)
    {
      var payload: seq<Entry> := [];
      var seen: set<string> := {};
      var i := 0;
      while i < |other|
        invariant 0 <= i <= |other|
        invariant payload == FirstOfEach(other[..i])
        invariant forall s :: s in seen <==> HasKey(payload, s)
      {
        var record := other[i];
        assert other[..i + 1][..i] == other[..i];
        if record.ieee != "" && record.name != "" && record.ieee !in seen {
          ghost var before := payload;
          seen := seen + {record.ieee};
          payload := payload + [record];
          assert payload[|before|] == record && payload[..|before|] == before;
        }
        i := i + 1;
      }
      assert other[..i] == other;
      if !write {
        return false;
      }
      WrittenKeysAreUnique(other);
      file := File(RecordOf(configs.supply), RecordOf(configs.extract), payload);
      journal := journal + [file];
      ok := true;
    }

    method SaveConfigs(configs: Configs, write: bool) returns (ok: bool)
      modifies this
      ensures ok == (write && SavedConfigs(old(file), configs).Some?)
      ensures ok ==> Some(file) == SavedConfigs(old(file), configs) && journal == old(journal) + [file]
      ensures !ok ==> file == old(file) && journal == old(journal)
    {
      hide FirstOfEach, LoadedEntries, LoadedRecord;
      var bundle := LoadBundle();
      match bundle {
        case None => ok := false;
        case Some(b) =>
          ok := SaveAssignments(configs, b.other, write);
      }
    }

    method SaveOtherRecords(records: seq<Entry>, write: bool) returns (ok: bool)
      modifies this
      ensures ok == (write && SavedOther(old(file), records).Some?)
      ensures ok ==> Some(file) == SavedOther(old(file), records) && journal == old(journal) + [file]
      ensures !ok ==> file == old(file) && journal == old(journal)
    {
      hide FirstOfEach, LoadedEntries, LoadedRecord;
      var bundle := LoadBundle();
      match bundle {
        case None => ok := false;
        case Some(b) =>
          ok := SaveAssignments(RuntimeConfigs(b), records, write);
      }
    }
  }

  /** One entry without content makes the whole file unloadable. */
  lemma {:induction false} OneBadEntryFails(d: seq<Entry>, i: nat)
    requires i < |d| && LoadedEntry(d[i]).None?
    ensures LoadedEntries(d).None?
    decreases |d|
  {
    hide LoadedEntry;
    if i < |d| - 1 {
      OneBadEntryFails(d[..|d| - 1], i);
    }
  }
}
