/** What the runs of the alert registry guarantee beyond refinement: the meaning of
    reconcile, amortised writes, bounded loss on a crash, and equality of the list
    store and the table store. */
module AlertGuarantees {
  import opened Common
  import opened AlertStore
  import opened AlertRegistry
  import opened AlertRuns

  // ----- the meaning of reconcile

  function CountOf(ledger: seq<Record>, key: string): int {
    var i := ActiveWith(ledger, key);
    if i < |ledger| then ledger[i].occurrences else 0
  }

  /** The key is active with this signal's data and the larger of the two counts. */
  ghost predicate Shows(ledger: seq<Record>, s: Signal, earlier: int) {
    var i := ActiveWith(ledger, s.key);
    i < |ledger| && ledger[i].meta == s.meta && ledger[i].occurrences == Max(earlier, s.occurrences)
  }

  lemma LedgerUpsertShows(ledger: seq<Record>, s: Signal, now: Stamp)
    requires OneActivePerKey(ledger)
    ensures var after := LedgerUpsert(ledger, s, now).0;
            && OneActivePerKey(after)
            && Shows(after, s, CountOf(ledger, s.key))
            && (forall key :: key != s.key ==> SameActive(ledger, after, key))
            && (forall i :: 0 <= i < |ledger| && !ledger[i].Active() ==> i < |after| && after[i] == ledger[i])
  {
    hide ActiveWith;
    var after := LedgerUpsert(ledger, s, now).0;
    var i := ActiveWith(ledger, s.key);
    assert ActiveWith(after, s.key) == i by {
      assert after[i].Active() && after[i].key == s.key;
    }
    forall key | key != s.key ensures SameActive(ledger, after, key) {
      var k := ActiveWith(ledger, key);
      var j := ActiveWith(after, key);
      if k < |ledger| { assert after[k] == ledger[k]; }
      if j < |ledger| && j != i { assert after[j] == ledger[j]; }
    }
  }

  /** The active record of a key, if any, is the same in both lists. */
  ghost predicate SameActive(a: seq<Record>, b: seq<Record>, key: string) {
    var i, j := ActiveWith(a, key), ActiveWith(b, key);
    (i < |a| <==> j < |b|) && (i < |a| ==> a[i] == b[j])
  }

  lemma {:induction false} LedgerUpsertAllShows(ledger: seq<Record>, signals: seq<Signal>, now: Stamp)
    requires OneActivePerKey(ledger) && DistinctKeys(signals)
    ensures var after := LedgerUpsertAll(ledger, signals, now);
            && OneActivePerKey(after)
            && (forall s :: s in signals ==> Shows(after, s, CountOf(ledger, s.key)))
            && (forall key :: key !in Keys(signals) ==> SameActive(ledger, after, key))
            && |after| >= |ledger|
            && (forall i :: 0 <= i < |ledger| && !ledger[i].Active() ==> after[i] == ledger[i])
    decreases signals
  {
    if signals != [] {
      hide OneActivePerKey, LedgerUpsert;
      var first, rest := signals[0], signals[1..];
      assert signals == [first] + rest;
      LedgerUpsertShows(ledger, first, now);
      FirstKeySplits(signals);
      var mid := LedgerUpsert(ledger, first, now).0;
      LedgerUpsertAllShows(mid, rest, now);
      var after := LedgerUpsertAll(ledger, signals, now);
      forall s | s in signals ensures Shows(after, s, CountOf(ledger, s.key)) {
        if s in rest {
          assert s.key in Keys(rest) && s.key != first.key;
          assert SameActive(ledger, mid, s.key);
        } else {
          assert first.key !in Keys(rest);
          assert SameActive(mid, after, first.key);
        }
      }
      forall key | key !in Keys(signals) ensures SameActive(ledger, after, key) {
        assert SameActive(ledger, mid, key) && SameActive(mid, after, key);
      }
    }
  }

  /** After reconcile exactly the signalled keys are active, each with its last
      signal's data and the maximum of the earlier and the signalled count; records
      that were cleared before have not changed. */
  lemma ReconcileMeaning(ledger: seq<Record>, signals: seq<Signal>, now: Stamp)
    requires OneActivePerKey(ledger)
    ensures var after := LedgerReconcile(ledger, signals, now);
            && OneActivePerKey(after)
            && (forall key :: ActiveWith(after, key) < |after| <==> key in Keys(signals))
            && (forall s :: s in ByKey(signals) ==> Shows(after, s, CountOf(ledger, s.key)))
            && |after| >= |ledger|
            && (forall i :: 0 <= i < |ledger| && !ledger[i].Active() ==> after[i] == ledger[i])
  {
    var byKey := ByKey(signals);
    var keep := Keys(byKey);
    var mid := LedgerUpsertAll(ledger, byKey, now);
    ByKeyDistinct(signals);
    LedgerUpsertAllShows(ledger, byKey, now);
    StopKeepsShape(mid, keep, now);
    hide ByKey, LedgerUpsertAll, OneActivePerKey, DistinctKeys;
    var after := LedgerStop(mid, keep, now);
    forall key ensures ActiveWith(after, key) < |after| <==> key in keep {
      StopKeepsSignalled(mid, keep, key, now);
      if key in keep {
        var s :| s in byKey && s.key == key;
        assert Shows(mid, s, CountOf(ledger, key));
      }
    }
    forall s | s in byKey ensures Shows(after, s, CountOf(ledger, s.key)) {
      StopKeepsSignalled(mid, keep, s.key, now);
      assert Shows(mid, s, CountOf(ledger, s.key)) && s.key in keep;
    }
  }

  lemma StopKeepsShape(ledger: seq<Record>, keep: set<string>, now: Stamp)
    requires OneActivePerKey(ledger)
    ensures OneActivePerKey(LedgerStop(ledger, keep, now))
    ensures forall i :: 0 <= i < |ledger| && !ledger[i].Active() ==> LedgerStop(ledger, keep, now)[i] == ledger[i]
  {
  }

  lemma StopKeepsSignalled(ledger: seq<Record>, keep: set<string>, key: string, now: Stamp)
    ensures ActiveWith(LedgerStop(ledger, keep, now), key) == if key in keep then ActiveWith(ledger, key) else |ledger|
    ensures key in keep && ActiveWith(ledger, key) < |ledger| ==>
              LedgerStop(ledger, keep, now)[ActiveWith(ledger, key)] == ledger[ActiveWith(ledger, key)]
  {
    hide ActiveWith;
    var after := LedgerStop(ledger, keep, now);
    var i, j := ActiveWith(ledger, key), ActiveWith(after, key);
    if key in keep {
      if i < |ledger| { assert after[i] == ledger[i]; }
      if j < |ledger| { assert after[j] == ledger[j]; }
    }
  }

  // ----- bounded lag and amortised writes

  /** Every stored count is at most the exact one and less than a step behind it. */
  lemma StoredCountLagsByLessThanStep(reg: Registry, i: nat)
    requires Sound(reg) && i < |reg.store.records|
    ensures var stored, seen := reg.store.records[i].occurrences, Seen(reg)[i].occurrences;
            stored <= seen < stored + reg.step
  {
  }

  /** The operation rewrote this record's count and nothing else of the record. */
  ghost predicate CountOnlyWrite(before: Record, after: Record) {
    before.Active() && after.Active() && after.meta == before.meta && after.occurrences != before.occurrences
  }

  lemma {:induction false} CloseAbsentProgress(reg: Registry, actives: seq<Record>, keep: set<string>, now: Stamp)
    requires Sound(reg) && DistinctRecordKeys(actives) && Pending(reg.store.records, actives, keep)
    ensures var before, after := reg.store.records, CloseAbsent(reg, actives, keep, now);
            && Sound(after) && |after.store.records| == |before|
            && forall i :: 0 <= i < |before| ==>
                 var r := after.store.records[i];
                 r == before[i] || (before[i].Active() && !r.Active() && r.occurrences >= before[i].occurrences &&
                                    r.key == before[i].key && r.alertId == before[i].alertId)
    decreases actives
  {
    hide Tracked, Numbered, OneActivePerKey, Watch, Pending, CloseRecord;
    if actives == [] {
    } else if actives[0].key in keep {
      SkipFirst(reg.store.records, actives, keep);
      CloseAbsentProgress(reg, actives[1..], keep, now);
    } else {
      var rs := reg.store.records;
      FirstIsPending(rs, actives, keep);
      var i :| 0 <= i < |rs| && rs[i] == actives[0];
      CloseRefines(reg, i, now);
      StoredCountLagsByLessThanStep(reg, i);
      PendingStep(rs, i, Stopped(Seen(reg)[i], now), actives, keep);
      CloseAbsentProgress(CloseRecord(reg, actives[0], now).0, actives[1..], keep, now);
      SeenKeepsKeys(reg, i);
    }
  }

  lemma SeenKeepsKeys(reg: Registry, i: nat)
    requires Sound(reg) && i < |reg.store.records|
    ensures Seen(reg)[i].key == reg.store.records[i].key && Seen(reg)[i].alertId == reg.store.records[i].alertId
  {
  }

  lemma ClearKeyProgress(reg: Registry, key: string, now: Stamp, i: nat)
    requires Sound(reg) && i < |reg.store.records|
    ensures var after := ClearKey(reg, key, now).0;
            && after.store.Memory? && i < |after.store.records|
            && Progress(reg.store.records[i], after.store.records[i], reg.step)
  {
    hide Tracked, Numbered, OneActivePerKey, CloseRecord, Watch;
    var k := ActiveWith(reg.store.records, key);
    if k < |reg.store.records| {
      CloseRefines(reg, k, now);
      StoredCountLagsByLessThanStep(reg, k);
      SeenKeepsKeys(reg, k);
    }
  }

  lemma ConfirmProgress(reg: Registry, id: int, now: Stamp, i: nat)
    requires Sound(reg) && i < |reg.store.records|
    ensures var after := Confirm(reg, id, now).0;
            && after.store.Memory? && i < |after.store.records|
            && Progress(reg.store.records[i], after.store.records[i], reg.step)
  {
    hide Tracked, OneActivePerKey, Watch, WithLatest;
    if 1 <= id <= |reg.store.records| {
      IndexAt(reg.store.records, id - 1);
    } else {
      UnknownIndex(reg.store.records, id);
    }
  }

  /** Every operation lets every stored record develop as Progress allows. */
  lemma ApplyProgress(reg: Registry, op: Op, i: nat)
    requires Sound(reg) && i < |reg.store.records|
    ensures var after := Apply(reg, op).0;
            && Sound(after) && i < |after.store.records|
            && Progress(reg.store.records[i], after.store.records[i], reg.step)
  {
    hide Tracked, Numbered, OneActivePerKey, Progress, Reconcile, Upsert, ClearKey, Confirm;
    ApplyRefines(reg, op);
    match op
    case DoReconcile(signals, now) => ReconcileProgress(reg, signals, now, i);
    case DoActivate(s, now) => UpsertLeaves(reg, s, now);
    case DoClear(key, now) => ClearKeyProgress(reg, key, now, i);
    case DoAcknowledge(id, now) => ConfirmProgress(reg, id, now, i);
  }

  lemma ReconcileProgress(reg: Registry, signals: seq<Signal>, now: Stamp, i: nat)
    requires Sound(reg) && i < |reg.store.records|
    ensures var after := Reconcile(reg, signals, now);
            && after.store.Memory? && i < |after.store.records|
            && Progress(reg.store.records[i], after.store.records[i], reg.step)
  {
    hide ByKey, Upsert, Tracked, Numbered, OneActivePerKey, Pending;
    var byKey := ByKey(signals);
    var mid := UpsertAll(reg, byKey, now);
    ByKeyDistinct(signals);
    UpsertAllLeaves(reg, byKey, now);
    ActivesAreListed(reg.store.records);
    ClosedAreAbsent(reg.store.records, mid.store.records, Keys(byKey), reg.step);
    CloseAbsentProgress(mid, OnlyActive(reg.store.records), Keys(byKey), now);
  }

  /** How many operations of a run wrote only the count of record i. */
  ghost function CountOnlyWrites(reg: Registry, ops: seq<Op>, i: nat): nat
    requires Sound(reg) && i < |reg.store.records|
    decreases ops
  {
    if ops == [] then 0
    else
      ApplyProgress(reg, ops[0], i);
      var after := Apply(reg, ops[0]).0;
      (if CountOnlyWrite(reg.store.records[i], after.store.records[i]) then 1 else 0)
      + CountOnlyWrites(after, ops[1..], i)
  }

  /** Over any run, count-only writes times the step never exceed the growth of the
      stored count, which itself never exceeds the exact count. */
  lemma {:induction false} WritesAreAmortised(reg: Registry, ops: seq<Op>, i: nat)
    requires Sound(reg) && i < |reg.store.records|
    ensures var end := Run(reg, ops).0;
            && Sound(end) && i < |end.store.records|
            && CountOnlyWrites(reg, ops, i) * reg.step
                 <= end.store.records[i].occurrences - reg.store.records[i].occurrences
            && end.store.records[i].occurrences <= Seen(end)[i].occurrences
    decreases ops
  {
    hide Tracked, Numbered, OneActivePerKey, Apply, Progress, Watch;
    if ops == [] {
      StoredCountLagsByLessThanStep(reg, i);
    } else {
      ApplyProgress(reg, ops[0], i);
      ApplyRefines(reg, ops[0]);
      var mid := Apply(reg, ops[0]).0;
      WritesAreAmortised(mid, ops[1..], i);
      WriteAddsStep(reg.store.records[i], mid.store.records[i], reg.step, CountOnlyWrites(mid, ops[1..], i));
    }
  }

  lemma WriteAddsStep(before: Record, after: Record, step: int, later: nat)
    requires Progress(before, after, step)
    ensures ((if CountOnlyWrite(before, after) then 1 else 0) + later) * step
            <= after.occurrences - before.occurrences + later * step
  {
  }

  // ----- crashes

  lemma LastActive(rs: seq<Record>)
    requires rs != []
    ensures var front, last := rs[..|rs| - 1], rs[|rs| - 1];
            CountsOf(OnlyActive(rs)) ==
            if last.Active() then CountsOf(OnlyActive(front))[last.key := last.occurrences]
            else CountsOf(OnlyActive(front))
  {
    var actives := OnlyActive(rs);
    if rs[|rs| - 1].Active() {
      assert actives[..|actives| - 1] == OnlyActive(rs[..|rs| - 1]);
    }
  }

  lemma {:induction false} CountsAreActive(rs: seq<Record>, key: string)
    ensures key in CountsOf(OnlyActive(rs)) ==> HasActive(rs, key)
  {
    if rs != [] {
      var front := rs[..|rs| - 1];
      LastActive(rs);
      CountsAreActive(front, key);
      hide OnlyActive, CountsOf;
      if HasActive(front, key) {
        var i :| ActiveAt(front, i, key);
        assert ActiveAt(rs, i, key);
      }
      if rs[|rs| - 1].Active() && rs[|rs| - 1].key == key { assert ActiveAt(rs, |rs| - 1, key); }
    }
  }

  lemma {:induction false} ActivesAreCounted(rs: seq<Record>, i: nat)
    requires OneActivePerKey(rs) && i < |rs| && rs[i].Active()
    ensures rs[i].key in CountsOf(OnlyActive(rs)) && CountsOf(OnlyActive(rs))[rs[i].key] == rs[i].occurrences
  {
    LastActive(rs);
    if i < |rs| - 1 {
      ActivesAreCounted(rs[..|rs| - 1], i);
    }
  }

  /** Rebuilding the registry from the store after a crash gives a sound registry that
      shows the same records, each count short by less than a step. */
  lemma CrashLosesLessThanStep(reg: Registry, step: int)
    requires Sound(reg) && step >= 1
    ensures var back := Open(reg.store, step);
            && Sound(back) && |Seen(back)| == |Seen(reg)|
            && forall i :: 0 <= i < |Seen(reg)| ==>
                 && Seen(back)[i] == Seen(reg)[i].(occurrences := Seen(back)[i].occurrences)
                 && Seen(reg)[i].occurrences - reg.step < Seen(back)[i].occurrences <= Seen(reg)[i].occurrences
  {
    var rs := reg.store.records;
    var back := Open(reg.store, step);
    forall i | 0 <= i < |rs| && rs[i].Active()
      ensures rs[i].key in back.latest && back.latest[rs[i].key] == rs[i].occurrences
    {
      ActivesAreCounted(rs, i);
    }
    forall key | key in back.latest ensures HasActive(rs, key) {
      CountsAreActive(rs, key);
    }
    hide Open;
    forall i | 0 <= i < |rs| ensures
      && Seen(back)[i] == Seen(reg)[i].(occurrences := Seen(back)[i].occurrences)
      && Seen(reg)[i].occurrences - reg.step < Seen(back)[i].occurrences <= Seen(reg)[i].occurrences
    {
      StoredCountLagsByLessThanStep(reg, i);
    }
  }

  // ----- the table behaves like the list

  ghost predicate Twins(m: Registry, t: Registry) {
    Sound(m) && Related(m.store, t.store) && m.latest == t.latest && m.step == t.step
  }

  lemma TwinUpsert(m: Registry, t: Registry, s: Signal, now: Stamp)
    requires Twins(m, t)
    ensures Twins(Upsert(m, s, now).0, Upsert(t, s, now).0)
    ensures Upsert(m, s, now).1 == Upsert(t, s, now).1
  {
    UpsertRefines(m, s, now);
    SameQueries(m.store, t.store, 0);
    hide Tracked, Numbered, OneActivePerKey, Related, Create, UpdateActive, Everything;
    var count := Max(LatestOr(m.latest, s.key, 0), s.occurrences);
    var i := ActiveWith(m.store.records, s.key);
    MemoryHoldsRecords(m.store);
    if i == |m.store.records| {
      SameCreate(m.store, t.store, WithCount(s, count), now);
    } else {
      assert m.store.records[i] in m.store.records;
      SameUpdate(m.store, t.store, m.store.records[i], WithCount(s, count));
    }
  }

  lemma MemoryHoldsRecords(m: Store)
    requires m.Memory?
    ensures Everything(m) == m.records
  {
  }

  lemma TwinClose(m: Registry, t: Registry, i: nat, now: Stamp)
    requires Twins(m, t) && i < |m.store.records| && m.store.records[i].Active()
    ensures var r := m.store.records[i];
            && Twins(CloseRecord(m, r, now).0, CloseRecord(t, r, now).0)
            && CloseRecord(m, r, now).1 == CloseRecord(t, r, now).1
  {
    var r := m.store.records[i];
    CloseRefines(m, i, now);
    assert r.alertId == i + 1;
    SameClear(m.store, t.store, r.alertId, now, Some(Max(r.occurrences, LatestOr(m.latest, r.key, r.occurrences))));
  }

  lemma {:induction false} TwinUpsertAll(m: Registry, t: Registry, signals: seq<Signal>, now: Stamp)
    requires Twins(m, t)
    ensures Twins(UpsertAll(m, signals, now), UpsertAll(t, signals, now))
    decreases signals
  {
    hide Twins, Upsert;
    if signals != [] {
      TwinUpsert(m, t, signals[0], now);
      TwinUpsertAll(Upsert(m, signals[0], now).0, Upsert(t, signals[0], now).0, signals[1..], now);
    }
  }

  lemma {:induction false} TwinCloseAbsent(
    m: Registry, t: Registry, actives: seq<Record>, keep: set<string>, now: Stamp)
    requires Twins(m, t) && DistinctRecordKeys(actives) && Pending(m.store.records, actives, keep)
    ensures Twins(CloseAbsent(m, actives, keep, now), CloseAbsent(t, actives, keep, now))
    decreases actives
  {
    hide Tracked, Numbered, OneActivePerKey, Watch, Pending, CloseRecord, Related;
    if actives == [] {
    } else if actives[0].key in keep {
      SkipFirst(m.store.records, actives, keep);
      TwinCloseAbsent(m, t, actives[1..], keep, now);
    } else {
      var rs := m.store.records;
      FirstIsPending(rs, actives, keep);
      var i :| 0 <= i < |rs| && rs[i] == actives[0];
      CloseRefines(m, i, now);
      TwinClose(m, t, i, now);
      PendingStep(rs, i, Stopped(Seen(m)[i], now), actives, keep);
      TwinCloseAbsent(CloseRecord(m, rs[i], now).0, CloseRecord(t, rs[i], now).0, actives[1..], keep, now);
    }
  }

  lemma TwinReconcile(m: Registry, t: Registry, signals: seq<Signal>, now: Stamp)
    requires Twins(m, t)
    ensures Twins(Reconcile(m, signals, now), Reconcile(t, signals, now))
  {
    hide ByKey, Upsert, Tracked, Numbered, OneActivePerKey, Pending, Related;
    var byKey := ByKey(signals);
    ByKeyDistinct(signals);
    SameQueries(m.store, t.store, 0);
    TwinUpsertAll(m, t, byKey, now);
    UpsertAllLeaves(m, byKey, now);
    ActivesAreListed(m.store.records);
    var mid := UpsertAll(m, byKey, now);
    ClosedAreAbsent(m.store.records, mid.store.records, Keys(byKey), m.step);
    TwinCloseAbsent(mid, UpsertAll(t, byKey, now), OnlyActive(m.store.records), Keys(byKey), now);
  }

  lemma TwinQueries(m: Registry, t: Registry, limit: nat)
    requires Twins(m, t)
    ensures ActiveView(m) == ActiveView(t) && HistoryView(m, limit) == HistoryView(t, limit)
  {
    SameQueries(m.store, t.store, limit);
  }

  lemma TwinClearKey(m: Registry, t: Registry, key: string, now: Stamp)
    requires Twins(m, t)
    ensures Twins(ClearKey(m, key, now).0, ClearKey(t, key, now).0)
    ensures ClearKey(m, key, now).1 == ClearKey(t, key, now).1
  {
    hide Tracked, Numbered, OneActivePerKey, Related, CloseRecord, Watch;
    SameQueries(m.store, t.store, 0);
    ClearKeyRefines(m, key, now);
    var i := ActiveWith(m.store.records, key);
    if i < |m.store.records| { TwinClose(m, t, i, now); }
  }

  lemma TwinConfirm(m: Registry, t: Registry, id: int, now: Stamp)
    requires Twins(m, t)
    ensures Twins(Confirm(m, id, now).0, Confirm(t, id, now).0)
    ensures Confirm(m, id, now).1 == Confirm(t, id, now).1
  {
    hide Tracked, Numbered, OneActivePerKey, Related, Watch, Acknowledge;
    ConfirmRefines(m, id, now);
    SameAcknowledge(m.store, t.store, id, now);
  }

  lemma TwinApply(m: Registry, t: Registry, op: Op)
    requires Twins(m, t)
    ensures Twins(Apply(m, op).0, Apply(t, op).0) && Apply(m, op).1 == Apply(t, op).1
  {
    hide Twins, Upsert, Reconcile, ClearKey, Confirm, ActiveView;
    match op
    case DoReconcile(signals, now) =>
      TwinReconcile(m, t, signals, now);
      TwinQueries(Reconcile(m, signals, now), Reconcile(t, signals, now), 0);
    case DoActivate(s, now) => TwinUpsert(m, t, s, now);
    case DoClear(key, now) => TwinClearKey(m, t, key, now);
    case DoAcknowledge(id, now) => TwinConfirm(m, t, id, now);
  }

  lemma {:induction false} TwinRun(m: Registry, t: Registry, ops: seq<Op>)
    requires Twins(m, t)
    ensures Twins(Run(m, ops).0, Run(t, ops).0) && Run(m, ops).1 == Run(t, ops).1
    decreases ops
  {
    hide Twins, Apply;
    if ops != [] {
      TwinApply(m, t, ops[0]);
      TwinRun(Apply(m, ops[0]).0, Apply(t, ops[0]).0, ops[1..]);
    }
  }

  /** Driven by the registry from empty, list and table give equal answers to every
      operation and query, and the table's unique index is never violated. */
  lemma StoresAreIndistinguishable(step: int, ops: seq<Op>, limit: nat)
    requires step >= 1
    ensures var (m, answersM) := Run(Open(EMPTY, step), ops);
            var (t, answersT) := Run(Open(Table(map[], 0), step), ops);
            && answersM == answersT
            && ActiveView(m) == ActiveView(t) && HistoryView(m, limit) == HistoryView(t, limit)
            && Related(m.store, t.store)
            && OneActivePerKey(Everything(t.store))
  {
    var m, t := Open(EMPTY, step), Open(Table(map[], 0), step);
    OpenEmptySound(step);
    assert Twins(m, t);
    TwinRun(m, t, ops);
    TwinQueries(Run(m, ops).0, Run(t, ops).0, limit);
    SameQueries(Run(m, ops).0.store, Run(t, ops).0.store, limit);
  }
}
