/** Whole runs of the alert registry: reconcile, queries, refinement of the ledger,
    independence of the persist step, amortised writes, crashes, and equality of the
    two stores. */
module AlertRuns {
  import opened Common
  import opened AlertStore
  import opened AlertRegistry

  // ----- what one signal touches

  /** How a stored record may develop.  A cleared record never changes; counts never
      fall; a write that changes nothing but the count adds at least a step. */
  ghost predicate Progress(before: Record, after: Record, step: int) {
    && after.key == before.key && after.alertId == before.alertId
    && after.occurrences >= before.occurrences
    && (!before.Active() ==> after == before)
    && (after.Active() && after.meta == before.meta && after.occurrences != before.occurrences ==>
          after.occurrences >= before.occurrences + step)
  }

  /** Records whose key is not among keys stay as they are; new records have such a key. */
  ghost predicate Extends(before: seq<Record>, after: seq<Record>, keys: set<string>, step: int) {
    && |before| <= |after|
    && (forall i :: 0 <= i < |before| ==> Progress(before[i], after[i], step))
    && (forall i :: 0 <= i < |before| ==> after[i].Active() == before[i].Active())
    && (forall i :: 0 <= i < |before| && before[i].key !in keys ==> after[i] == before[i])
    && (forall i :: |before| <= i < |after| ==> after[i].key in keys)
  }

  /** One signal: only the active record of its key moves, and a new record has its key. */
  lemma UpsertLeaves(reg: Registry, s: Signal, now: Stamp)
    requires Sound(reg)
    ensures Upsert(reg, s, now).0.store.Memory?
    ensures Extends(reg.store.records, Upsert(reg, s, now).0.store.records, {s.key}, reg.step)
  {
    hide ActiveWith, IndexOf, OneActivePerKey, Owned;
    var rs := reg.store.records;
    var i := ActiveWith(rs, s.key);
    if i < |rs| { IndexAt(rs, i); }
  }

  lemma ExtendsCompose(a: seq<Record>, b: seq<Record>, c: seq<Record>, first: set<string>, rest: set<string>, step: int)
    requires Extends(a, b, first, step) && Extends(b, c, rest, step) && first !! rest
    ensures Extends(a, c, first + rest, step)
  {
    forall i | 0 <= i < |a| ensures Progress(a[i], c[i], step) {
      assert Progress(a[i], b[i], step) && Progress(b[i], c[i], step);
      if a[i].key in first { assert c[i] == b[i]; } else { assert b[i] == a[i]; }
    }
  }

  /** Distinct signals: every stored record is written at most once. */
  lemma {:induction false} UpsertAllLeaves(reg: Registry, signals: seq<Signal>, now: Stamp)
    requires Sound(reg) && DistinctKeys(signals)
    ensures Sound(UpsertAll(reg, signals, now))
    ensures Extends(reg.store.records, UpsertAll(reg, signals, now).store.records, Keys(signals), reg.step)
    decreases signals
  {
    hide Upsert, Extends, Tracked, Numbered, OneActivePerKey;
    UpsertAllRefines(reg, signals, now);
    if signals == [] {
      assert Keys(signals) == {};
      ExtendsNothing(reg.store.records, reg.step);
    } else {
      var mid := Upsert(reg, signals[0], now).0;
      var rest := signals[1..];
      UpsertRefines(reg, signals[0], now);
      UpsertLeaves(reg, signals[0], now);
      UpsertAllLeaves(mid, rest, now);
      FirstKeySplits(signals);
      ExtendsCompose(reg.store.records, mid.store.records, UpsertAll(mid, rest, now).store.records,
                     {signals[0].key}, Keys(rest), reg.step);
    }
  }

  lemma ExtendsNothing(rs: seq<Record>, step: int)
    ensures Extends(rs, rs, {}, step)
  {
  }

  lemma FirstKeySplits(signals: seq<Signal>)
    requires signals != [] && DistinctKeys(signals)
    ensures {signals[0].key} !! Keys(signals[1..])
    ensures Keys(signals) == {signals[0].key} + Keys(signals[1..])
    ensures DistinctKeys(signals[1..])
  {
    assert signals == [signals[0]] + signals[1..];
  }

  lemma {:induction false} ByKeyDistinct(signals: seq<Signal>)
    ensures DistinctKeys(ByKey(signals)) && Keys(ByKey(signals)) == Keys(signals)
  {
    if signals != [] {
      var front, last := signals[..|signals| - 1], signals[|signals| - 1];
      ByKeyDistinct(front);
      assert signals == front + [last];
      PutKeepsDistinct(ByKey(front), last);
    }
  }

  lemma PutKeepsDistinct(byKey: seq<Signal>, s: Signal)
    requires DistinctKeys(byKey)
    ensures DistinctKeys(PutSignal(byKey, s)) && Keys(PutSignal(byKey, s)) == Keys(byKey) + {s.key}
  {
    var i := PositionOf(byKey, s.key);
    var after := PutSignal(byKey, s);
    forall key ensures key in Keys(after) <==> key in Keys(byKey) + {s.key} {
      if x :| x in byKey && x.key == key {
        var k :| 0 <= k < |byKey| && byKey[k] == x;
        assert after[k].key == key && after[k] in after;
      }
      if key == s.key {
        assert after[if i < |byKey| then i else |byKey|] in after;
      }
    }
  }

  // ----- reconcile refines the ledger

  ghost predicate DistinctRecordKeys(rs: seq<Record>) {
    forall i, j :: 0 <= i < j < |rs| ==> rs[i].key != rs[j].key
  }

  /** The records still to be closed are stored as they were listed. */
  ghost predicate Pending(rs: seq<Record>, actives: seq<Record>, keep: set<string>) {
    forall r :: r in actives && r.key !in keep ==> r in rs && r.Active()
  }

  function KeysToClose(actives: seq<Record>, keep: set<string>): set<string> {
    set r | r in actives && r.key !in keep :: r.key
  }

  function StopKeys(ledger: seq<Record>, keys: set<string>, now: Stamp): (r: seq<Record>)
    ensures |r| == |ledger|
  {
    seq(|ledger|, i requires 0 <= i < |ledger| =>
      if ledger[i].Active() && ledger[i].key in keys then Stopped(ledger[i], now) else ledger[i])
  }

  lemma PendingStep(rs: seq<Record>, i: nat, r: Record, actives: seq<Record>, keep: set<string>)
    requires i < |rs| && OneActivePerKey(rs) && actives != [] && rs[i] == actives[0] && rs[i].Active()
    requires DistinctRecordKeys(actives) && Pending(rs, actives, keep)
    ensures Pending(rs[i := r], actives[1..], keep)
  {
    forall x | x in actives[1..] && x.key !in keep ensures x in rs[i := r] && x.Active() {
      assert x in actives;
      var k :| 0 <= k < |rs| && rs[k] == x;
      assert rs[i := r][k] == x;
    }
  }

  lemma StopOneThenRest(ledger: seq<Record>, i: nat, first: string, rest: set<string>, now: Stamp)
    requires i < |ledger| && OneActivePerKey(ledger) && ledger[i].Active() && ledger[i].key == first
    ensures StopKeys(ledger[i := Stopped(ledger[i], now)], rest, now) == StopKeys(ledger, {first} + rest, now)
  {
    var left := StopKeys(ledger[i := Stopped(ledger[i], now)], rest, now);
    var right := StopKeys(ledger, {first} + rest, now);
    forall k | 0 <= k < |ledger| ensures left[k] == right[k] {
      if k != i && ledger[k].Active() { assert ledger[k].key != first; }
    }
  }

  lemma SeenKeepsShape(reg: Registry)
    requires Sound(reg)
    ensures OneActivePerKey(Seen(reg)) && Numbered(Seen(reg))
  {
  }

  lemma {:induction false} CloseAbsentRefines(reg: Registry, actives: seq<Record>, keep: set<string>, now: Stamp)
    requires Sound(reg) && DistinctRecordKeys(actives) && Pending(reg.store.records, actives, keep)
    ensures var after := CloseAbsent(reg, actives, keep, now);
            && Sound(after) && after.step == reg.step
            && Seen(after) == StopKeys(Seen(reg), KeysToClose(actives, keep), now)
    decreases actives
  {
    hide Tracked, Numbered, OneActivePerKey, Watch, StopKeys, Pending, CloseRecord;
    SeenKeepsShape(reg);
    if actives == [] {
      assert KeysToClose(actives, keep) == {};
      StopNothing(Seen(reg), now);
    } else if actives[0].key in keep {
      SkipFirst(reg.store.records, actives, keep);
      CloseAbsentRefines(reg, actives[1..], keep, now);
    } else {
      var rs := reg.store.records;
      var r, rest := actives[0], actives[1..];
      FirstIsPending(rs, actives, keep);
      var i :| 0 <= i < |rs| && rs[i] == r;
      CloseRefines(reg, i, now);
      PendingStep(rs, i, Stopped(Seen(reg)[i], now), actives, keep);
      CloseAbsentRefines(CloseRecord(reg, r, now).0, rest, keep, now);
      StopOneThenRest(Seen(reg), i, r.key, KeysToClose(rest, keep), now);
      FirstKeyToClose(actives, keep);
    }
  }

  lemma StopNothing(ledger: seq<Record>, now: Stamp)
    ensures StopKeys(ledger, {}, now) == ledger
  {
  }

  lemma SkipFirst(rs: seq<Record>, actives: seq<Record>, keep: set<string>)
    requires actives != [] && actives[0].key in keep && DistinctRecordKeys(actives) && Pending(rs, actives, keep)
    ensures KeysToClose(actives[1..], keep) == KeysToClose(actives, keep)
    ensures DistinctRecordKeys(actives[1..]) && Pending(rs, actives[1..], keep)
  {
    assert actives == [actives[0]] + actives[1..];
  }

  lemma FirstIsPending(rs: seq<Record>, actives: seq<Record>, keep: set<string>)
    requires actives != [] && actives[0].key !in keep && Pending(rs, actives, keep)
    ensures actives[0] in rs && actives[0].Active()
  {
    assert actives[0] in actives;
  }

  lemma FirstKeyToClose(actives: seq<Record>, keep: set<string>)
    requires actives != [] && actives[0].key !in keep
    ensures KeysToClose(actives, keep) == {actives[0].key} + KeysToClose(actives[1..], keep)
  {
    assert actives == [actives[0]] + actives[1..];
  }

  lemma {:induction false} ActivesAreListed(rs: seq<Record>)
    requires OneActivePerKey(rs)
    ensures DistinctRecordKeys(OnlyActive(rs))
    ensures forall r :: r in OnlyActive(rs) <==> r in rs && r.Active()
  {
    if rs != [] {
      var front, last := rs[..|rs| - 1], rs[|rs| - 1];
      assert rs == front + [last];
      ActivesAreListed(front);
      if last.Active() {
        forall r | r in OnlyActive(front) ensures r.key != last.key {
          var k :| 0 <= k < |front| && front[k] == r;
          assert rs[k] == r && rs[|rs| - 1] == last;
        }
      }
    }
  }

  /** Records that were active before the upserts and have no signal are the ones closed. */
  lemma ClosedAreAbsent(before: seq<Record>, after: seq<Record>, keep: set<string>, step: int)
    requires Extends(before, after, keep, step)
    requires forall r :: r in OnlyActive(before) <==> r in before && r.Active()
    ensures Pending(after, OnlyActive(before), keep)
    ensures forall i :: 0 <= i < |after| && after[i].Active() ==>
              (after[i].key in KeysToClose(OnlyActive(before), keep) <==> after[i].key !in keep)
  {
    forall r | r in OnlyActive(before) && r.key !in keep ensures r in after {
      var k :| 0 <= k < |before| && before[k] == r;
      assert after[k] == r;
    }
    forall i | 0 <= i < |after| && after[i].Active() && after[i].key !in keep
      ensures after[i].key in KeysToClose(OnlyActive(before), keep)
    {
      assert i < |before| && before[i] == after[i] && before[i] in before;
    }
  }

  /** Reconcile refines the ledger's reconcile, whatever the step. */
  lemma ReconcileRefines(reg: Registry, signals: seq<Signal>, now: Stamp)
    requires Sound(reg)
    ensures Sound(Reconcile(reg, signals, now)) && Reconcile(reg, signals, now).step == reg.step
    ensures Seen(Reconcile(reg, signals, now)) == LedgerReconcile(Seen(reg), signals, now)
  {
    hide ByKey, Upsert, Extends, Tracked, Numbered, OneActivePerKey, Pending, Watch, StopKeys, LedgerStop;
    var byKey := ByKey(signals);
    var keep := Keys(byKey);
    var mid := UpsertAll(reg, byKey, now);
    var actives := OnlyActive(reg.store.records);
    ByKeyDistinct(signals);
    UpsertAllRefines(reg, byKey, now);
    UpsertAllLeaves(reg, byKey, now);
    ActivesAreListed(reg.store.records);
    ClosedAreAbsent(reg.store.records, mid.store.records, keep, reg.step);
    CloseAbsentRefines(mid, actives, keep, now);
    StopKeysIsStop(mid.store.records, mid.latest, KeysToClose(actives, keep), keep, now);
  }

  lemma StopKeysIsStop(rs: seq<Record>, latest: map<string, int>, keys: set<string>, keep: set<string>, now: Stamp)
    requires forall i :: 0 <= i < |rs| && rs[i].Active() ==> (rs[i].key in keys <==> rs[i].key !in keep)
    ensures StopKeys(Watch(rs, latest), keys, now) == LedgerStop(Watch(rs, latest), keep, now)
  {
    var ledger := Watch(rs, latest);
    assert forall i :: 0 <= i < |ledger| ==>
      ledger[i].Active() == rs[i].Active() && ledger[i].key == rs[i].key;
  }

  // ----- queries

  lemma {:induction false} WatchOnlyActive(rs: seq<Record>, latest: map<string, int>)
    ensures Watch(OnlyActive(rs), latest) == OnlyActive(Watch(rs, latest))
  {
    if rs != [] {
      var front, last := rs[..|rs| - 1], rs[|rs| - 1];
      WatchOnlyActive(front, latest);
      var w := Watch(rs, latest);
      assert w[..|w| - 1] == Watch(front, latest);
      if last.Active() { WatchAppend(OnlyActive(front), last, latest); }
    }
  }

  function Newest(ledger: seq<Record>, limit: nat): seq<Record> {
    Reversed(ledger[if limit <= |ledger| then |ledger| - limit else 0..])
  }

  lemma WatchReversed(rs: seq<Record>, latest: map<string, int>)
    ensures Watch(Reversed(rs), latest) == Reversed(Watch(rs, latest))
  {
    hide WithLatest;
  }

  lemma WatchSuffix(rs: seq<Record>, latest: map<string, int>, from: nat)
    requires from <= |rs|
    ensures Watch(rs[from..], latest) == Watch(rs, latest)[from..]
  {
    hide WithLatest;
  }

  /** Clients see exactly the ledger: active_records and history. */
  lemma QueriesShowLedger(reg: Registry, limit: nat)
    requires Sound(reg)
    ensures ActiveView(reg) == OnlyActive(Seen(reg))
    ensures HistoryView(reg, limit) == Newest(Seen(reg), limit)
  {
    hide Watch, OnlyActive, Reversed, Tracked, Numbered, OneActivePerKey;
    var rs := reg.store.records;
    WatchOnlyActive(rs, reg.latest);
    var from := if limit <= |rs| then |rs| - limit else 0;
    WatchSuffix(rs, reg.latest, from);
    WatchReversed(rs[from..], reg.latest);
  }

  // ----- runs

  datatype Op =
    | DoReconcile(signals: seq<Signal>, now: Stamp)
    | DoActivate(signal: Signal, now: Stamp)
    | DoClear(key: string, now: Stamp)
    | DoAcknowledge(id: int, now: Stamp)

  datatype Answer =
    | Records(records: seq<Record>)
    | Single(record: Record)
    | Perhaps(option: Option<Record>)
    | Checked(result: Result<Record, StoreError>)

  ghost function Apply(reg: Registry, op: Op): (Registry, Answer) {
    match op
    case DoReconcile(signals, now) =>
      var after := Reconcile(reg, signals, now);
      (after, Records(ActiveView(after)))
    case DoActivate(s, now) =>
      var (after, r) := Upsert(reg, s, now);
      (after, Single(r))
    case DoClear(key, now) =>
      var (after, r) := ClearKey(reg, key, now);
      (after, Perhaps(r))
    case DoAcknowledge(id, now) =>
      var (after, r) := Confirm(reg, id, now);
      (after, Checked(r))
  }

  function LedgerApply(ledger: seq<Record>, op: Op): (seq<Record>, Answer) {
    match op
    case DoReconcile(signals, now) =>
      var after := LedgerReconcile(ledger, signals, now);
      (after, Records(OnlyActive(after)))
    case DoActivate(s, now) =>
      var (after, r) := LedgerUpsert(ledger, s, now);
      (after, Single(r))
    case DoClear(key, now) =>
      var (after, r) := LedgerClear(ledger, key, now);
      (after, Perhaps(r))
    case DoAcknowledge(id, now) =>
      var (after, r) := LedgerConfirm(ledger, id, now);
      (after, Checked(r))
  }

  lemma ApplyRefines(reg: Registry, op: Op)
    requires Sound(reg)
    ensures var (after, answer) := Apply(reg, op);
            Sound(after) && after.step == reg.step && (Seen(after), answer) == LedgerApply(Seen(reg), op)
  {
    hide Sound, Upsert, ClearKey, Confirm, Reconcile, ActiveView;
    hide LedgerReconcile, LedgerUpsert, LedgerClear, LedgerConfirm;
    match op
    case DoReconcile(signals, now) =>
      ReconcileRefines(reg, signals, now);
      QueriesShowLedger(Reconcile(reg, signals, now), 1);
    case DoActivate(s, now) => UpsertRefines(reg, s, now);
    case DoClear(key, now) => ClearKeyRefines(reg, key, now);
    case DoAcknowledge(id, now) => ConfirmRefines(reg, id, now);
  }

  ghost function Run(reg: Registry, ops: seq<Op>): (r: (Registry, seq<Answer>))
    decreases ops
  {
    if ops == [] then (reg, [])
    else
      var (mid, answer) := Apply(reg, ops[0]);
      var (end, answers) := Run(mid, ops[1..]);
      (end, [answer] + answers)
  }

  function LedgerRun(ledger: seq<Record>, ops: seq<Op>): (seq<Record>, seq<Answer>)
    decreases ops
  {
    if ops == [] then (ledger, [])
    else
      var (mid, answer) := LedgerApply(ledger, ops[0]);
      var (end, answers) := LedgerRun(mid, ops[1..]);
      (end, [answer] + answers)
  }

  /** For every run the registry answers like the ledger, operation by operation. */
  lemma {:induction false} RunRefines(reg: Registry, ops: seq<Op>)
    requires Sound(reg)
    ensures var (end, answers) := Run(reg, ops);
            Sound(end) && end.step == reg.step && (Seen(end), answers) == LedgerRun(Seen(reg), ops)
    decreases ops
  {
    hide Sound, Apply, LedgerApply;
    if ops != [] {
      ApplyRefines(reg, ops[0]);
      RunRefines(Apply(reg, ops[0]).0, ops[1..]);
    }
  }

  const EMPTY: Store := Memory([], 1)

  lemma OpenEmptySound(step: int)
    requires step >= 1
    ensures Sound(Open(EMPTY, step)) && Seen(Open(EMPTY, step)) == []
  {
  }

  /** Write-back is invisible: registries that batch by different steps give the same
      answers and show the same records after every run. */
  lemma StepIsInvisible(s: int, t: int, ops: seq<Op>, limit: nat)
    requires s >= 1 && t >= 1
    ensures var (a, answersA) := Run(Open(EMPTY, s), ops);
            var (b, answersB) := Run(Open(EMPTY, t), ops);
            && answersA == answersB
            && ActiveView(a) == ActiveView(b)
            && HistoryView(a, limit) == HistoryView(b, limit)
  {
    OpenEmptySound(s);
    OpenEmptySound(t);
    RunRefines(Open(EMPTY, s), ops);
    RunRefines(Open(EMPTY, t), ops);
    QueriesShowLedger(Run(Open(EMPTY, s), ops).0, limit);
    QueriesShowLedger(Run(Open(EMPTY, t), ops).0, limit);
  }
}
