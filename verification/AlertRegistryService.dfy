/** The registry as the program has it: an object that updates a count cache and a
    store in place.  Each method is proved against the value function of the same
    operation, so everything proved about runs holds of the object. */
module AlertRegistryService {
  import opened Common
  import opened AlertStore
  import AR = AlertRegistry
  import AlertRuns

  /** The dictionary active = {record.key: record} matches the stored active records. */
  ghost predicate Agrees(active: map<string, Record>, rs: seq<Record>) {
    forall key :: AgreesOn(active, rs, key)
  }

  ghost predicate AgreesOn(active: map<string, Record>, rs: seq<Record>, key: string) {
    var i := AR.ActiveWith(rs, key);
    (key in active <==> i < |rs|) && (i < |rs| ==> active[key] == rs[i])
  }

  lemma ActiveWithPatched(before: seq<Record>, after: seq<Record>, i: nat, r: Record, key: string)
    requires i <= |before| && r.Active() && i == AR.ActiveWith(before, r.key)
    requires after == if i < |before| then before[i := r] else before + [r]
    ensures AR.ActiveWith(after, key) ==
            if key == r.key then i
            else if AR.ActiveWith(before, key) < |before| then AR.ActiveWith(before, key) else |after|
  {
    hide AR.ActiveWith;
    var k, j := AR.ActiveWith(before, key), AR.ActiveWith(after, key);
    if key == r.key {
      assert after[i] == r;
    } else {
      if k < |before| { assert after[k] == before[k]; }
      if j < |after| && j != i { assert after[j] == before[j]; }
    }
  }

  lemma OtherAgrees(
    active: map<string, Record>, before: seq<Record>, after: seq<Record>, i: nat, r: Record, key: string)
    requires AgreesOn(active, before, key) && i <= |before| && r.Active()
    requires i == AR.ActiveWith(before, r.key)
    requires after == if i < |before| then before[i := r] else before + [r]
    ensures AgreesOn(active[r.key := r], after, key)
  {
    hide AR.ActiveWith;
    ActiveWithPatched(before, after, i, r, key);
  }

  lemma OthersAgree(active: map<string, Record>, before: seq<Record>, after: seq<Record>, i: nat, r: Record)
    requires Agrees(active, before) && i <= |before| && r.Active()
    requires i == AR.ActiveWith(before, r.key)
    requires after == if i < |before| then before[i := r] else before + [r]
    ensures Agrees(active[r.key := r], after)
  {
    hide AgreesOn, AR.ActiveWith;
    var active' := active[r.key := r];
    forall key ensures AgreesOn(active', after, key) {
      assert AgreesOn(active, before, key);
      OtherAgrees(active, before, after, i, r, key);
    }
  }

  /** Listing the active records and keying them gives a matching dictionary. */
  lemma ListedIsActive(rs: seq<Record>, r: Record)
    requires AR.OneActivePerKey(rs) && r in OnlyActive(rs)
    ensures AR.ActiveWith(rs, r.key) < |rs| && rs[AR.ActiveWith(rs, r.key)] == r
  {
    var k :| 0 <= k < |rs| && rs[k] == r;
    var i := AR.ActiveWith(rs, r.key);
    assert rs[k].Active() && rs[k].key == r.key;
  }

  lemma UnlistedIsInactive(rs: seq<Record>, key: string)
    requires forall r :: r in OnlyActive(rs) ==> r.key != key
    ensures AR.ActiveWith(rs, key) == |rs|
  {
    forall k | 0 <= k < |rs| ensures !(rs[k].Active() && rs[k].key == key) {
      assert rs[k].Active() ==> rs[k] in OnlyActive(rs);
    }
  }

  lemma DictionaryAgrees(active: map<string, Record>, rs: seq<Record>)
    requires AR.OneActivePerKey(rs)
    requires forall r :: r in OnlyActive(rs) ==> r.key in active
    requires forall key :: key in active ==> active[key] in OnlyActive(rs) && active[key].key == key
    ensures Agrees(active, rs)
  {
    forall key ensures AgreesOn(active, rs, key) {
      if key in active {
        ListedIsActive(rs, active[key]);
      } else {
        UnlistedIsInactive(rs, key);
      }
    }
  }

  method Dictionary(actives: seq<Record>) returns (active: map<string, Record>)
    ensures forall r :: r in actives ==> r.key in active
    ensures forall key :: key in active ==> active[key] in actives && active[key].key == key
  {
    active := map[];
    for n := 0 to |actives|
      invariant forall k :: 0 <= k < n ==> actives[k].key in active
      invariant forall key :: key in active ==> active[key] in actives && active[key].key == key
    {
      active := active[actives[n].key := actives[n]];
    }
  }

  method SignalsByKey(signals: seq<Signal>) returns (byKey: seq<Signal>)
    ensures byKey == AR.ByKey(signals)
  {
    byKey := [];
    for n := 0 to |signals|
      invariant byKey == AR.ByKey(signals[..n])
    {
      assert signals[..n + 1][..n] == signals[..n];
      byKey := AR.PutSignal(byKey, signals[n]);
    }
    assert signals[..|signals|] == signals;
  }

  class AlertRegistry {
    const store: MemoryAlertStore
    const step: int
    var latest: map<string, int>

    ghost function View(): AR.Registry
      reads this, store
    {
      AR.Registry(store.View(), latest, step)
    }

    ghost predicate Valid()
      reads this, store
    {
      AR.Sound(View())
    }

    /** Opens the registry over an empty store; the count cache starts empty. */
    constructor (step: int)
      requires step >= 1
      ensures Valid() && fresh(store) && View() == AR.Open(AlertRuns.EMPTY, step)
    {
      var fresh_ := new MemoryAlertStore();
      this.step, store, latest := step, fresh_, map[];
      new;
      AlertRuns.OpenEmptySound(step);
      assert store.records == [];
    }

    /** One signal against the dictionary of active records. */
    method Put(active: map<string, Record>, s: Signal, now: Stamp) returns (active': map<string, Record>, r: Record)
      requires Valid() && Agrees(active, store.records)
      modifies this, store
      ensures Valid() && (View(), r) == AR.Upsert(old(View()), s, now)
      ensures Agrees(active', store.records)
    {
      AR.UpsertRefines(View(), s, now);
      ghost var before := store.records;
      ghost var i := AR.ActiveWith(before, s.key);
      assert AgreesOn(active, before, s.key);
      var count := Max(AR.LatestOr(latest, s.key, 0), s.occurrences);
      latest := latest[s.key := count];
      active' := active;
      if s.key !in active {
        var created := store.Add(AR.WithCount(s, count), now);
        r := created.value;
        active' := active[s.key := r];
        OthersAgree(active, before, store.records, i, r);
      } else {
        r := active[s.key];
        AR.IndexAt(before, i);
        if AR.WriteDue(r, s, count, step) {
          var updated := store.Update(r, AR.WithCount(s, count));
          r := updated.value;
          active' := active[s.key := r];
          OthersAgree(active, before, store.records, i, r);
        }
        r := AR.WithLatest(r, latest);
      }
    }

    /** Closes one stored active record with its exact final count. */
    method Close(record: Record, now: Stamp) returns (r: Result<Record, StoreError>)
      requires Valid() && record in store.records && record.Active()
      modifies this, store
      ensures Valid() && (View(), r) == AR.CloseRecord(old(View()), record, now)
    {
      ghost var i :| 0 <= i < |store.records| && store.records[i] == record;
      AR.CloseRefines(View(), i, now);
      var final := Max(record.occurrences, AR.LatestOr(latest, record.key, record.occurrences));
      latest := latest - {record.key};
      r := store.Close(record.alertId, now, Some(final));
    }

    method Reconcile(signals: seq<Signal>, now: Stamp) returns (r: seq<Record>)
      requires Valid()
      modifies this, store
      ensures Valid() && View() == AR.Reconcile(old(View()), signals, now)
      ensures r == AR.ActiveView(View())
    {
      var byKey := SignalsByKey(signals);
      var actives := store.ActiveOnes();
      PutAll(byKey, actives, now);
      ghost var keep := AR.Keys(byKey);
      ghost var start := old(View());
      ghost var mid := View();
      assert AlertRuns.Pending(store.records, actives, keep) && AlertRuns.DistinctRecordKeys(actives) by {
        AlertRuns.ByKeyDistinct(signals);
        AlertRuns.UpsertAllLeaves(start, byKey, now);
        AlertRuns.ActivesAreListed(start.store.records);
        AlertRuns.ClosedAreAbsent(start.store.records, store.records, keep, step);
      }
      CloseMissing(actives, byKey, now);
      r := ActiveRecords();
    }

    method PutAll(byKey: seq<Signal>, actives: seq<Record>, now: Stamp)
      requires Valid() && actives == OnlyActive(store.records)
      modifies this, store
      ensures Valid() && View() == AR.UpsertAll(old(View()), byKey, now)
    {
      var active := Dictionary(actives);
      DictionaryAgrees(active, store.records);
      assert byKey[0..] == byKey;
      for n := 0 to |byKey|
        invariant Valid() && Agrees(active, store.records)
        invariant AR.UpsertAll(old(View()), byKey, now) == AR.UpsertAll(View(), byKey[n..], now)
      {
        assert byKey[n..][1..] == byKey[n + 1..];
        var active', _ := Put(active, byKey[n], now);
        active := active';
      }
    }

    method CloseMissing(actives: seq<Record>, byKey: seq<Signal>, now: Stamp)
      requires Valid()
      requires AlertRuns.DistinctRecordKeys(actives)
      requires AlertRuns.Pending(store.records, actives, AR.Keys(byKey))
      modifies this, store
      ensures Valid() && View() == AR.CloseAbsent(old(View()), actives, AR.Keys(byKey), now)
    {
      hide AR.Tracked, AR.Numbered, AR.OneActivePerKey, AR.Watch, AR.CloseRecord;
      hide AlertRuns.Pending;
      var keep := AR.Keys(byKey);
      assert actives[0..] == actives;
      for n := 0 to |actives|
        invariant Valid()
        invariant AlertRuns.DistinctRecordKeys(actives[n..])
        invariant AlertRuns.Pending(store.records, actives[n..], keep)
        invariant AR.CloseAbsent(old(View()), actives, keep, now) == AR.CloseAbsent(View(), actives[n..], keep, now)
      {
        assert actives[n..][0] == actives[n] && actives[n..][1..] == actives[n + 1..];
        if actives[n].key !in keep {
          ghost var before := View();
          AlertRuns.FirstIsPending(store.records, actives[n..], keep);
          ghost var i :| 0 <= i < |store.records| && store.records[i] == actives[n];
          AR.CloseRefines(before, i, now);
          AlertRuns.PendingStep(store.records, i, AR.Stopped(AR.Seen(before)[i], now), actives[n..], keep);
          var _ := Close(actives[n], now);
        } else {
          AlertRuns.SkipFirst(store.records, actives[n..], keep);
        }
      }
    }

    method Activate(s: Signal, now: Stamp) returns (r: Record)
      requires Valid()
      modifies this, store
      ensures Valid() && (View(), r) == AR.Upsert(old(View()), s, now)
    {
      hide AR.Tracked, AR.Watch, AR.ActiveWith, OnlyActive;
      AR.UpsertRefines(View(), s, now);
      var count := Max(AR.LatestOr(latest, s.key, 0), s.occurrences);
      latest := latest[s.key := count];
      var actives := store.ActiveOnes();
      for n := 0 to |actives|
        invariant forall k :: 0 <= k < n ==> actives[k].key != s.key
      {
        if actives[n].key == s.key {
          r := actives[n];
          assert r in actives;
          ListedIsActive(store.records, r);
          if AR.WriteDue(r, s, count, step) {
            AR.IndexAt(store.records, AR.ActiveWith(store.records, s.key));
            var updated := store.Update(r, AR.WithCount(s, count));
            r := updated.value;
          }
          r := AR.WithLatest(r, latest);
          return;
        }
      }
      UnlistedIsInactive(store.records, s.key);
      var created := store.Add(AR.WithCount(s, count), now);
      r := created.value;
    }

    method ClearKey(key: string, now: Stamp) returns (r: Option<Record>)
      requires Valid()
      modifies this, store
      ensures Valid() && (View(), r) == AR.ClearKey(old(View()), key, now)
    {
      hide AR.Tracked, AR.Numbered, AR.Watch, AR.CloseRecord;
      AR.ClearKeyRefines(View(), key, now);
      var actives := store.ActiveOnes();
      for n := 0 to |actives|
        invariant View() == old(View())
        invariant forall k :: 0 <= k < n ==> actives[k].key != key
      {
        if actives[n].key == key {
          assert actives[n] in actives;
          ListedIsActive(store.records, actives[n]);
          ghost var i := AR.ActiveWith(store.records, key);
          AR.CloseRefines(View(), i, now);
          var closed := Close(actives[n], now);
          r := Some(closed.value);
          return;
        }
      }
      UnlistedIsInactive(store.records, key);
      latest := latest - {key};
      r := None;
    }

    /** The source's rejection of ids below one is the UnknownId answer here: ids start at one. */
    method Acknowledge(id: int, now: Stamp) returns (r: Result<Record, StoreError>)
      requires Valid()
      modifies this, store
      ensures Valid() && (View(), r) == AR.Confirm(old(View()), id, now)
    {
      AR.ConfirmRefines(View(), id, now);
      r := store.Confirm(id, now);
      match r {
        case Success(record) => r := Success(AR.WithLatest(record, latest));
        case Failure(_) =>
      }
    }

    method ActiveRecords() returns (r: seq<Record>)
      requires Valid()
      ensures r == AR.ActiveView(View())
    {
      var listed := store.ActiveOnes();
      r := AR.Watch(listed, latest);
    }

    /** None: the limit is outside 1..1000. */
    method History(limit: int) returns (r: Option<seq<Record>>)
      requires Valid()
      ensures r == if 1 <= limit <= 1000 then Some(AR.HistoryView(View(), limit)) else None
    {
      if !(1 <= limit <= 1000) {
        return None;
      }
      var listed := store.History(limit);
      r := Some(AR.Watch(listed, latest));
    }
  }
}
