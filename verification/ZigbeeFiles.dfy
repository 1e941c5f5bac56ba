/** What loading makes of any registry file, proper or not, and which records a save keeps,
    in src/ventilation_core/infrastructure/zigbee_role_store.py. */
module ZigbeeFiles {
  import opened Common
  import opened ZigbeeRoleStore

  // ----- loading

  /** The text without the white space around it; nothing is left of a blank one. */
  ghost predicate IsTrimmed(text: string, trimmed: string) {
    && (exists before, after :: text == before + trimmed + after && AllSpace(before) && AllSpace(after))
    && (trimmed == "" || !(IsSpace(trimmed[0]) || IsSpace(trimmed[|trimmed| - 1])))
  }

  lemma StripTrims(s: string)
    ensures IsTrimmed(s, Strip(s))
    ensures Strip(s) == "" <==> AllSpace(s)
  {
    hide *;
    var before, after := StripMeaning(s);
    PartsAreTrimmed(before, Strip(s), after);
  }

  lemma PartsAreTrimmed(before: string, core: string, after: string)
    requires AllSpace(before) && AllSpace(after) && (core == "" || Clean(core))
    ensures IsTrimmed(before + core + after, core)
    ensures core == "" <==> AllSpace(before + core + after)
  {
    hide IsSpace;
    var text := before + core + after;
    if core != "" {
      assert text[|before|] == core[0];
    } else {
      assert forall i :: 0 <= i < |text| ==> text[i] == if i < |before| then before[i] else after[i - |before|];
    }
  }

  predicate HasBlank(e: Entry) {
    AllSpace(e.ieee) || AllSpace(e.name)
  }

  ghost predicate TrimmedEntry(e: Entry, loaded: Entry) {
    IsTrimmed(e.ieee, loaded.ieee) && IsTrimmed(e.name, loaded.name) && !HasBlank(e)
  }

  ghost predicate TrimmedRecord(r: Option<Entry>, loaded: Option<Entry>) {
    (r.Some? <==> loaded.Some?) && (r.Some? ==> TrimmedEntry(r.value, loaded.value))
  }

  lemma EntryMeaning(e: Entry)
    ensures LoadedEntry(e).None? <==> HasBlank(e)
    ensures LoadedEntry(e).Some? ==> TrimmedEntry(e, LoadedEntry(e).value)
  {
    StripTrims(e.ieee);
    StripTrims(e.name);
    hide Strip, IsTrimmed, AllSpace;
  }

  lemma {:induction false} EntriesMeaning(d: seq<Entry>)
    ensures LoadedEntries(d).None? <==> exists e :: e in d && HasBlank(e)
    ensures LoadedEntries(d).Some? ==>
              var loaded := LoadedEntries(d).value;
              |loaded| == |d| && forall i :: 0 <= i < |d| ==> TrimmedEntry(d[i], loaded[i])
    decreases |d|
  {
    if d != [] {
      var front, last := d[..|d| - 1], d[|d| - 1];
      assert d == front + [last];
      EntriesMeaning(front);
      EntryMeaning(last);
      hide LoadedEntry, HasBlank, TrimmedEntry;
    }
  }

  predicate BlankRecord(r: Option<Entry>) {
    r.Some? && HasBlank(r.value)
  }

  /** A file is refused exactly when one of its entries has a blank address or a blank name;
      otherwise every entry is loaded in its place, trimmed. */
  lemma LoadMeaning(file: File)
    ensures Loaded(file).None? <==>
            BlankRecord(file.supply) || BlankRecord(file.extract) || exists e :: e in file.other && HasBlank(e)
    ensures Loaded(file).Some? ==>
              var loaded := Loaded(file).value;
              && TrimmedRecord(file.supply, loaded.supply) && TrimmedRecord(file.extract, loaded.extract)
              && |loaded.other| == |file.other|
              && forall i :: 0 <= i < |file.other| ==> TrimmedEntry(file.other[i], loaded.other[i])
  {
    if file.supply.Some? { EntryMeaning(file.supply.value); }
    if file.extract.Some? { EntryMeaning(file.extract.value); }
    EntriesMeaning(file.other);
    hide LoadedEntry, HasBlank, TrimmedEntry, LoadedEntries;
  }

  // ----- saving

  predicate Assigned(e: Entry) {
    e.ieee != "" && e.name != ""
  }

  /** The first assigned record of its address. */
  ghost predicate IsFirst(d: seq<Entry>, e: Entry) {
    exists i :: FirstAt(d, e, i)
  }

  ghost predicate FirstAt(d: seq<Entry>, e: Entry, i: int) {
    && 0 <= i < |d| && d[i] == e && Assigned(e)
    && forall j :: 0 <= j < i ==> !(Assigned(d[j]) && d[j].ieee == e.ieee)
  }

  /** Exactly the first assigned record of every address is written. */
  lemma {:induction false} FirstsAreWritten(d: seq<Entry>, e: Entry)
    ensures e in FirstOfEach(d) <==> IsFirst(d, e)
    ensures HasKey(FirstOfEach(d), e.ieee) <==> exists i :: 0 <= i < |d| && Assigned(d[i]) && d[i].ieee == e.ieee
    decreases |d|
  {
    if d != [] {
      var front, last := d[..|d| - 1], d[|d| - 1];
      FirstsAreWritten(front, e);
      FirstsAreWritten(front, last);
      FirstOfMore(d, e);
      hide FirstAt;
      KeyOfMore(FirstOfEach(front), last, e.ieee);
      AssignedOfMore(d, e.ieee);
      AssignedOfMore(d, last.ieee);
    }
  }

  lemma KeyOfMore(d: seq<Entry>, last: Entry, ieee: string)
    ensures HasKey(d + [last], ieee) <==> HasKey(d, ieee) || last.ieee == ieee
  {
    var all := d + [last];
    assert all[|d|] == last;
    if i :| 0 <= i < |d| && d[i].ieee == ieee { assert all[i].ieee == ieee; }
  }

  lemma AssignedOfMore(d: seq<Entry>, ieee: string)
    requires d != []
    ensures var front, last := d[..|d| - 1], d[|d| - 1];
            (exists i :: 0 <= i < |d| && Assigned(d[i]) && d[i].ieee == ieee) <==>
            (exists i :: 0 <= i < |front| && Assigned(front[i]) && front[i].ieee == ieee) ||
            (Assigned(last) && last.ieee == ieee)
  {
    var front := d[..|d| - 1];
    if i :| 0 <= i < |front| && Assigned(front[i]) && front[i].ieee == ieee { assert d[i] == front[i]; }
    if i :| 0 <= i < |d| && Assigned(d[i]) && d[i].ieee == ieee && i < |front| { assert front[i] == d[i]; }
  }

  lemma FirstOfMore(d: seq<Entry>, e: Entry)
    requires d != []
    ensures var front, last := d[..|d| - 1], d[|d| - 1];
            IsFirst(d, e) <==>
            IsFirst(front, e) ||
            (last == e && Assigned(e) && !exists i :: 0 <= i < |front| && Assigned(front[i]) && front[i].ieee == e.ieee)
  {
    var front, last := d[..|d| - 1], d[|d| - 1];
    if i :| FirstAt(front, e, i) { assert FirstAt(d, e, i); }
    if i :| FirstAt(d, e, i) {
      if i < |front| { assert FirstAt(front, e, i); }
    }
    if last == e && Assigned(e) && !exists i :: 0 <= i < |front| && Assigned(front[i]) && front[i].ieee == e.ieee {
      assert FirstAt(d, e, |front|);
    }
  }
}
