/** What each record of the alert registry goes through: what one operation may do to it,
    what stays over every run, and what the queries show. */
module AlertRecords {
  import opened Common
  import opened AlertStore
  import opened AlertRegistry
  import opened AlertRuns
  import opened AlertGuarantees

  // ----- acknowledging

  /** acknowledge: it succeeds for the ids of active records; that record then shows the
      time of its first acknowledgement, and nothing else changes. */
  lemma AcknowledgeMeaning(reg: Registry, id: int, at: Stamp)
    requires Sound(reg)
    ensures var (after, answer) := Confirm(reg, id, at);
            && Sound(after) && |Seen(after)| == |Seen(reg)|
            && (answer == Failure(UnknownId) <==> !(1 <= id <= |Seen(reg)|))
            && (answer == Failure(NotActive) <==> 1 <= id <= |Seen(reg)| && !Seen(reg)[id - 1].Active())
            && (answer.Failure? ==> Seen(after) == Seen(reg))
            && (answer.Success? ==>
                  && 1 <= id <= |Seen(reg)| && answer.value == Seen(after)[id - 1]
                  && (Seen(reg)[id - 1].acknowledgedAt == None ==> Seen(after)[id - 1].acknowledgedAt == Some(at))
                  && (Seen(reg)[id - 1].acknowledgedAt != None ==>
                        Seen(after)[id - 1].acknowledgedAt == Seen(reg)[id - 1].acknowledgedAt)
                  && SameButAcknowledged(Seen(reg)[id - 1], Seen(after)[id - 1])
                  && forall i :: 0 <= i < |Seen(reg)| && i != id - 1 ==> Seen(after)[i] == Seen(reg)[i])
  {
    ConfirmRefines(reg, id, at);
    hide Sound, Confirm, Watch;
  }

  /** The records differ at most in the time of acknowledgement. */
  predicate SameButAcknowledged(before: Record, after: Record) {
    && after.alertId == before.alertId && after.key == before.key && after.meta == before.meta
    && after.activeSince == before.activeSince && after.clearedAt == before.clearedAt
    && after.occurrences == before.occurrences
  }

  // ----- what one operation does to one record

  /** A record that is there stays the same incident: its id, key and start; a count that
      only grows; the time it was acknowledged and the time it was cleared, once they are
      set; acknowledged only by the call for its id, cleared only by a call that names its
      key or no longer signals it, at the time of that call. */
  ghost predicate Develops(before: Record, after: Record, op: Op) {
    && after.alertId == before.alertId && after.key == before.key && after.activeSince == before.activeSince
    && after.occurrences >= before.occurrences
    && (!before.Active() ==> after == before)
    && (before.acknowledgedAt.Some? ==> after.acknowledgedAt == before.acknowledgedAt)
    && (before.acknowledgedAt.None? && after.acknowledgedAt.Some? ==>
          op == DoAcknowledge(before.alertId, after.acknowledgedAt.value))
    && (before.Active() && !after.Active() ==> after == before.(clearedAt := Some(op.now)) && Clears(op, before.key))
    && (before.Active() && Clears(op, before.key) ==> !after.Active())
  }

  /** The operation ends the incident of this key. */
  predicate Clears(op: Op, key: string) {
    match op
    case DoReconcile(signals, _) => key !in Keys(signals)
    case DoClear(k, _) => k == key
    case _ => false
  }

  /** A new record starts an incident at the time of the operation. */
  ghost predicate Starts(r: Record, i: nat, op: Op) {
    && r.alertId == i + 1 && r.activeSince == op.now && r.acknowledgedAt == None && r.clearedAt == None
    && exists s :: Signalled(op, s) && r.key == s.key && r.meta == s.meta && r.occurrences == s.occurrences
  }

  predicate Signalled(op: Op, s: Signal) {
    match op
    case DoReconcile(signals, _) => s in signals
    case DoActivate(signal, _) => s == signal
    case _ => false
  }

  /** A record that one signal may have refreshed. */
  ghost predicate Grows(before: Record, after: Record) {
    && after.alertId == before.alertId && after.key == before.key && after.activeSince == before.activeSince
    && after.acknowledgedAt == before.acknowledgedAt && after.clearedAt == before.clearedAt
    && after.occurrences >= before.occurrences
    && (!before.Active() ==> after == before)
  }

  lemma UpsertGrows(ledger: seq<Record>, s: Signal, now: Stamp)
    ensures var after := LedgerUpsert(ledger, s, now).0;
            && |ledger| <= |after| <= |ledger| + 1
            && (forall i :: 0 <= i < |ledger| ==>
                  Grows(ledger[i], after[i]) && (ledger[i].key != s.key ==> after[i] == ledger[i]))
            && (|after| > |ledger| ==> IsNew(after[|ledger|], |ledger|, s, now))
  {
  }

  predicate IsNew(r: Record, i: nat, s: Signal, now: Stamp) {
    && r.alertId == i + 1 && r.key == s.key && r.meta == s.meta && r.activeSince == now
    && r.acknowledgedAt == None && r.clearedAt == None && r.occurrences == s.occurrences
  }

  lemma {:induction false} UpsertAllGrows(ledger: seq<Record>, signals: seq<Signal>, now: Stamp)
    requires DistinctKeys(signals)
    ensures var after := LedgerUpsertAll(ledger, signals, now);
            && |ledger| <= |after|
            && (forall i :: 0 <= i < |ledger| ==>
                  Grows(ledger[i], after[i]) && (ledger[i].key !in Keys(signals) ==> after[i] == ledger[i]))
            && (forall i :: |ledger| <= i < |after| ==> exists s :: s in signals && IsNew(after[i], i, s, now))
    decreases signals
  {
    if signals != [] {
      var first, rest := signals[0], signals[1..];
      assert signals == [first] + rest;
      UpsertGrows(ledger, first, now);
      FirstKeySplits(signals);
      var mid := LedgerUpsert(ledger, first, now).0;
      UpsertAllGrows(mid, rest, now);
      hide LedgerUpsert, DistinctKeys;
      var after := LedgerUpsertAll(ledger, signals, now);
      assert after == LedgerUpsertAll(mid, rest, now);
      forall i | |ledger| <= i < |after| ensures exists s :: s in signals && IsNew(after[i], i, s, now) {
        if i < |mid| {
          assert IsNew(mid[i], i, first, now) && mid[i].key !in Keys(rest);
          assert after[i] == mid[i] && first in signals;
        } else {
          var s :| s in rest && IsNew(after[i], i, s, now);
          assert s in signals;
        }
      }
      forall i | 0 <= i < |ledger|
        ensures Grows(ledger[i], after[i]) && (ledger[i].key !in Keys(signals) ==> after[i] == ledger[i])
      {
        assert Grows(ledger[i], mid[i]) && Grows(mid[i], after[i]);
      }
    }
  }

  /** Over the ledger: every record develops, and every new one starts. */
  lemma LedgerDevelops(ledger: seq<Record>, op: Op)
    requires Numbered(ledger) && OneActivePerKey(ledger)
    ensures var after := LedgerApply(ledger, op).0;
            && |ledger| <= |after|
            && (forall i :: 0 <= i < |ledger| ==> Develops(ledger[i], after[i], op))
            && (forall i :: |ledger| <= i < |after| ==> Starts(after[i], i, op))
  {
    match op
    case DoReconcile(signals, now) => ReconcileDevelops(ledger, signals, now);
    case DoActivate(s, now) =>
      UpsertGrows(ledger, s, now);
      hide LedgerUpsert;
      assert Signalled(op, s);
    case DoClear(key, now) => ClearDevelops(ledger, key, now);
    case DoAcknowledge(id, now) =>
  }

  lemma ClearDevelops(ledger: seq<Record>, key: string, now: Stamp)
    requires OneActivePerKey(ledger)
    ensures var after := LedgerClear(ledger, key, now).0;
            && |after| == |ledger|
            && (forall i :: 0 <= i < |ledger| ==> Develops(ledger[i], after[i], DoClear(key, now)))
  {
    hide ActiveWith;
  }

  lemma ReconcileDevelops(ledger: seq<Record>, signals: seq<Signal>, now: Stamp)
    ensures var op := DoReconcile(signals, now);
            var after := LedgerReconcile(ledger, signals, now);
            && |ledger| <= |after|
            && (forall i :: 0 <= i < |ledger| ==> Develops(ledger[i], after[i], op))
            && (forall i :: |ledger| <= i < |after| ==> Starts(after[i], i, op))
  {
    var op := DoReconcile(signals, now);
    var byKey := ByKey(signals);
    ByKeyDistinct(signals);
    LastSignalWins(signals);
    UpsertAllGrows(ledger, byKey, now);
    hide ByKey, LedgerUpsertAll, DistinctKeys;
    var mid := LedgerUpsertAll(ledger, byKey, now);
    var after := LedgerReconcile(ledger, signals, now);
    assert Keys(byKey) == Keys(signals) && after == LedgerStop(mid, Keys(byKey), now) && |after| == |mid|;
    forall i | |ledger| <= i < |after| ensures Starts(after[i], i, op) {
      assert i < |mid|;
      var s :| s in byKey && IsNew(mid[i], i, s, now);
      assert s.key in Keys(signals) && Signalled(op, s);
    }
  }

  // ----- which signal of a key counts

  /** This signal is in the list, and none after it has its key. */
  ghost predicate IsLast(signals: seq<Signal>, s: Signal) {
    exists i :: 0 <= i < |signals| && signals[i] == s && forall j :: i < j < |signals| ==> signals[j].key != s.key
  }

  /** Of several signals with one key the last one counts. */
  lemma {:induction false} LastSignalWins(signals: seq<Signal>)
    ensures forall s :: s in ByKey(signals) <==> IsLast(signals, s)
    ensures forall s :: s in ByKey(signals) ==> s in signals
    ensures Keys(ByKey(signals)) == Keys(signals)
    decreases |signals|
  {
    if signals != [] {
      var front, last := signals[..|signals| - 1], signals[|signals| - 1];
      LastSignalWins(front);
      ByKeyDistinct(front);
      ByKeyDistinct(signals);
      assert ByKey(signals) == PutSignal(ByKey(front), last);
      hide ByKey, PutSignal, IsLast, Keys, DistinctKeys;
      forall s ensures s in ByKey(signals) <==> IsLast(signals, s) {
        PutSignalHolds(ByKey(front), last, s);
        LastOfMore(signals, s);
      }
      LastIsListed(signals);
    }
  }

  lemma LastIsListed(signals: seq<Signal>)
    ensures forall s :: IsLast(signals, s) ==> s in signals
  {
  }

  lemma LastOfMore(signals: seq<Signal>, s: Signal)
    requires signals != []
    ensures var front, last := signals[..|signals| - 1], signals[|signals| - 1];
            IsLast(signals, s) <==> s == last || (IsLast(front, s) && s.key != last.key)
  {
    var front, last := signals[..|signals| - 1], signals[|signals| - 1];
    if IsLast(front, s) && s.key != last.key {
      var i :| 0 <= i < |front| && front[i] == s && forall j :: i < j < |front| ==> front[j].key != s.key;
      assert signals[i] == s && forall j :: i < j < |front| ==> signals[j] == front[j];
    }
    if IsLast(signals, s) && s != last {
      var i :| 0 <= i < |signals| && signals[i] == s && forall j :: i < j < |signals| ==> signals[j].key != s.key;
      assert front[i] == s;
    }
    if s == last { assert signals[|signals| - 1] == s; }
  }

  lemma PutSignalHolds(byKey: seq<Signal>, s: Signal, t: Signal)
    requires DistinctKeys(byKey)
    ensures t in PutSignal(byKey, s) <==> t == s || (t in byKey && t.key != s.key)
  {
    var i := PositionOf(byKey, s.key);
    var put := PutSignal(byKey, s);
    if t in byKey && t.key != s.key {
      var k :| 0 <= k < |byKey| && byKey[k] == t;
      assert put[k] == t;
    }
    assert put[if i < |byKey| then i else |byKey|] == s;
  }

  // ----- over the registry and over every run

  /** Every operation of the registry. */
  lemma OperationMeaning(reg: Registry, op: Op)
    requires Sound(reg)
    ensures var after := Apply(reg, op).0;
            && Sound(after) && |Seen(reg)| <= |Seen(after)|
            && (forall i :: 0 <= i < |Seen(reg)| ==> Develops(Seen(reg)[i], Seen(after)[i], op))
            && (forall i :: |Seen(reg)| <= i < |Seen(after)| ==> Starts(Seen(after)[i], i, op))
  {
    hide Sound, Apply, LedgerApply, Numbered, OneActivePerKey, Develops, Starts, Watch;
    SeenKeepsShape(reg);
    ApplyRefines(reg, op);
    LedgerDevelops(Seen(reg), op);
  }

  /** What each call answers. */
  lemma AnswerMeaning(reg: Registry, op: Op)
    requires Sound(reg)
    ensures var (after, answer) := Apply(reg, op);
            Sound(after) &&
            match op
            case DoReconcile(_, _) =>
              answer.Records? && forall r :: r in answer.records <==> r in Seen(after) && r.Active()
            case DoActivate(s, _) =>
              && answer.Single? && answer.record in Seen(after) && answer.record.Active()
              && answer.record.key == s.key && answer.record.meta == s.meta
              && answer.record.occurrences == Max(CountOf(Seen(reg), s.key), s.occurrences)
            case DoClear(key, now) =>
              && answer.Perhaps?
              && (answer.option.None? <==> !HasActive(Seen(reg), key))
              && (answer.option.Some? ==>
                    && answer.option.value in Seen(after) && answer.option.value.key == key
                    && answer.option.value.clearedAt == Some(now))
            case DoAcknowledge(_, _) => answer.Checked?
  {
    hide Sound, Apply, Watch, Numbered, OneActivePerKey;
    ApplyRefines(reg, op);
    LedgerAnswers(Seen(reg), op);
  }

  lemma LedgerAnswers(ledger: seq<Record>, op: Op)
    ensures var (after, answer) := LedgerApply(ledger, op);
            match op
            case DoReconcile(_, _) =>
              answer.Records? && forall r :: r in answer.records <==> r in after && r.Active()
            case DoActivate(s, _) =>
              && answer.Single? && answer.record in after && answer.record.Active()
              && answer.record.key == s.key && answer.record.meta == s.meta
              && answer.record.occurrences == Max(CountOf(ledger, s.key), s.occurrences)
            case DoClear(key, now) =>
              && answer.Perhaps?
              && (answer.option.None? <==> !HasActive(ledger, key))
              && (answer.option.Some? ==>
                    && answer.option.value in after && answer.option.value.key == key
                    && answer.option.value.clearedAt == Some(now))
            case DoAcknowledge(_, _) => answer.Checked?
  {
    hide ActiveWith, LedgerReconcile;
    match op
    case DoReconcile(_, _) =>
    case DoActivate(s, now) =>
      var i := ActiveWith(ledger, s.key);
      var after := LedgerUpsert(ledger, s, now).0;
      assert after[i] in after;
    case DoClear(key, now) =>
      var i := ActiveWith(ledger, key);
      if i < |ledger| {
        assert ActiveAt(ledger, i, key);
        assert LedgerClear(ledger, key, now).0[i] in LedgerClear(ledger, key, now).0;
      }
    case DoAcknowledge(_, _) =>
  }

  /** Over any run an incident keeps its identity, its count only grows, and what has been
      acknowledged or cleared stays so, with its time. */
  ghost predicate Lasts(before: Record, after: Record) {
    && after.alertId == before.alertId && after.key == before.key && after.activeSince == before.activeSince
    && after.occurrences >= before.occurrences
    && (before.acknowledgedAt.Some? ==> after.acknowledgedAt == before.acknowledgedAt)
    && (!before.Active() ==> after == before)
  }

  lemma {:induction false} RecordsLast(reg: Registry, ops: seq<Op>)
    requires Sound(reg)
    ensures var end := Run(reg, ops).0;
            && Sound(end) && |Seen(reg)| <= |Seen(end)|
            && forall i :: 0 <= i < |Seen(reg)| ==> Lasts(Seen(reg)[i], Seen(end)[i])
    decreases ops
  {
    hide Sound, Apply, Seen;
    if ops != [] {
      OperationMeaning(reg, ops[0]);
      RecordsLast(Apply(reg, ops[0]).0, ops[1..]);
    }
  }

  // ----- queries

  /** history: the newest records first, at most the limit. */
  lemma HistoryMeaning(reg: Registry, limit: nat)
    requires Sound(reg)
    ensures var h := HistoryView(reg, limit);
            && |h| == (if limit <= |Seen(reg)| then limit else |Seen(reg)|)
            && forall i :: 0 <= i < |h| ==> h[i] == Seen(reg)[|Seen(reg)| - 1 - i]
  {
    hide *;
    QueriesShowLedger(reg, limit);
    NewestMeans(Seen(reg), limit);
  }

  lemma NewestMeans(ledger: seq<Record>, limit: nat)
    ensures var h := Newest(ledger, limit);
            && |h| == (if limit <= |ledger| then limit else |ledger|)
            && forall i :: 0 <= i < |h| ==> h[i] == ledger[|ledger| - 1 - i]
  {
  }

  /** active_records: exactly the active records, each once, in the order of their ids. */
  lemma ActiveMeaning(reg: Registry)
    requires Sound(reg)
    ensures var a := ActiveView(reg);
            && (forall r :: r in a <==> r in Seen(reg) && r.Active())
            && (forall i, j :: 0 <= i < j < |a| ==> a[i].alertId < a[j].alertId)
  {
    QueriesShowLedger(reg, 0);
    SeenKeepsShape(reg);
    ActivesAscend(Seen(reg));
    hide Sound, ActiveView, Watch;
  }

  lemma {:induction false} ActivesAscend(rs: seq<Record>)
    requires Numbered(rs)
    ensures var a := OnlyActive(rs);
            && (forall i, j :: 0 <= i < j < |a| ==> a[i].alertId < a[j].alertId)
            && (forall i :: 0 <= i < |a| ==> 1 <= a[i].alertId <= |rs|)
    decreases |rs|
  {
    if rs != [] {
      var front, last := rs[..|rs| - 1], rs[|rs| - 1];
      ActivesAscend(front);
      assert last.alertId == |rs|;
      assert OnlyActive(rs) == if last.Active() then OnlyActive(front) + [last] else OnlyActive(front);
    }
  }

  // ----- what is stored

  /** A signal that opens an incident, changes its data or raises its stored count by a step
      is written at once, with the exact count: the stored record is the visible one. */
  lemma WritesAreExact(reg: Registry, s: Signal, now: Stamp)
    requires Sound(reg)
    ensures var before := reg.store.records;
            var after := Upsert(reg, s, now).0;
            var i := ActiveWith(before, s.key);
            && Sound(after)
            && (i == |before| || before[i].meta != s.meta || s.occurrences >= before[i].occurrences + reg.step ==>
                  i < |after.store.records| == |Seen(after)| && after.store.records[i] == Seen(after)[i])
  {
    UpsertRefines(reg, s, now);
    var i := ActiveWith(reg.store.records, s.key);
    if i < |reg.store.records| { IndexAt(reg.store.records, i); }
  }
}
