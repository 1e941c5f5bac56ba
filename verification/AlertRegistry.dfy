/** AlertRegistry of src/ventilation_core/application/alert_registry.py: alert
    lifecycles whose occurrence counts live in memory and reach the store in batches
    of occurrence_persist_step.

    The reference is a ledger: the plain list of records with exact counts, which
    knows neither batches nor a count cache.  The registry refines the ledger for
    every step, so clients cannot tell a write-back registry from a write-through
    one.  Beside that: the stored count lags by less than a step, occurrence-only
    writes are amortised, a crash loses less than a step per alert, and the registry
    behaves alike over the list and over the table.
 */
module AlertRegistry {
  import opened Common
  import opened AlertStore

  // ----- the registry as a value

  datatype Registry = Registry(store: Store, latest: map<string, int>, step: int)

  function LatestOr(latest: map<string, int>, key: string, default_: int): int {
    if key in latest then latest[key] else default_
  }

  /** The record as clients see it. */
  function WithLatest(r: Record, latest: map<string, int>): Record {
    if !r.Active() || LatestOr(latest, r.key, r.occurrences) <= r.occurrences then r
    else r.(occurrences := latest[r.key])
  }

  function Watch(rs: seq<Record>, latest: map<string, int>): (w: seq<Record>)
    ensures |w| == |rs|
    ensures forall i :: 0 <= i < |rs| ==> w[i] == WithLatest(rs[i], latest)
  {
    seq(|rs|, i requires 0 <= i < |rs| => WithLatest(rs[i], latest))
  }

  /** Position of the active record of a key, or the length when there is none. */
  function ActiveWith(rs: seq<Record>, key: string): (i: nat)
    ensures i <= |rs|
    ensures i < |rs| ==> rs[i].Active() && rs[i].key == key
    ensures forall k :: 0 <= k < i ==> !(rs[k].Active() && rs[k].key == key)
  {
    if rs == [] || (rs[0].Active() && rs[0].key == key) then 0 else 1 + ActiveWith(rs[1..], key)
  }

  function WithCount(s: Signal, count: int): Signal
    requires count >= s.occurrences
  {
    s.(occurrences := count)
  }

  /** Start of the cache: the counts of the stored active records. */
  function CountsOf(actives: seq<Record>): map<string, int> {
    if actives == [] then map[]
    else
      var last := actives[|actives| - 1];
      CountsOf(actives[..|actives| - 1])[last.key := last.occurrences]
  }

  function Open(store: Store, step: int): Registry {
    Registry(store, CountsOf(ListActive(store)), step)
  }

  predicate WriteDue(r: Record, s: Signal, count: int, step: int) {
    r.meta != s.meta || count >= r.occurrences + step
  }

  /** One signal: shared by reconcile and activate.  Also the record activate returns. */
  ghost function Upsert(reg: Registry, s: Signal, now: Stamp): (Registry, Record) {
    var count := Max(LatestOr(reg.latest, s.key, 0), s.occurrences);
    var latest := reg.latest[s.key := count];
    var rs := Everything(reg.store);
    var i := ActiveWith(rs, s.key);
    if i == |rs| then
      var (store, r) := Create(reg.store, WithCount(s, count), now);
      (Registry(store, latest, reg.step), if r.Success? then r.value else NewRecord(0, s, now))
    else if WriteDue(rs[i], s, count, reg.step) then
      var (store, r) := UpdateActive(reg.store, rs[i], WithCount(s, count));
      (Registry(store, latest, reg.step), WithLatest(if r.Success? then r.value else rs[i], latest))
    else (Registry(reg.store, latest, reg.step), WithLatest(rs[i], latest))
  }

  /** Closes one active record with its exact count and forgets the cached count. */
  function CloseRecord(reg: Registry, r: Record, now: Stamp): (Registry, Result<Record, StoreError>) {
    var final := Max(r.occurrences, LatestOr(reg.latest, r.key, r.occurrences));
    var (store, closed) := Clear(reg.store, r.alertId, now, Some(final));
    (Registry(store, reg.latest - {r.key}, reg.step), closed)
  }

  function ClearKey(reg: Registry, key: string, now: Stamp): (Registry, Option<Record>) {
    var rs := Everything(reg.store);
    var i := ActiveWith(rs, key);
    if i == |rs| then (reg.(latest := reg.latest - {key}), None)
    else
      var (after, closed) := CloseRecord(reg, rs[i], now);
      (after, if closed.Success? then Some(closed.value) else None)
  }

  function Confirm(reg: Registry, id: int, now: Stamp): (Registry, Result<Record, StoreError>) {
    var (store, r) := Acknowledge(reg.store, id, now);
    (reg.(store := store), if r.Success? then Success(WithLatest(r.value, reg.latest)) else r)
  }

  function ActiveView(reg: Registry): seq<Record> {
    Watch(ListActive(reg.store), reg.latest)
  }

  function HistoryView(reg: Registry, limit: nat): seq<Record> {
    Watch(ListHistory(reg.store, limit), reg.latest)
  }

  // ----- reconcile

  function PositionOf(signals: seq<Signal>, key: string): (i: nat)
    ensures i <= |signals|
    ensures i < |signals| ==> signals[i].key == key
    ensures forall k :: 0 <= k < i ==> signals[k].key != key
  {
    if signals == [] || signals[0].key == key then 0 else 1 + PositionOf(signals[1..], key)
  }

  function PutSignal(byKey: seq<Signal>, s: Signal): seq<Signal> {
    var i := PositionOf(byKey, s.key);
    if i < |byKey| then byKey[i := s] else byKey + [s]
  }

  /** The insertion-ordered dictionary {signal.key: signal}: first position, last value. */
  function ByKey(signals: seq<Signal>): seq<Signal> {
    if signals == [] then []
    else PutSignal(ByKey(signals[..|signals| - 1]), signals[|signals| - 1])
  }

  function Keys(signals: seq<Signal>): set<string> {
    set s | s in signals :: s.key
  }

  ghost predicate DistinctKeys(signals: seq<Signal>) {
    forall i, j :: 0 <= i < j < |signals| ==> signals[i].key != signals[j].key
  }

  ghost function UpsertAll(reg: Registry, signals: seq<Signal>, now: Stamp): Registry
    decreases signals
  {
    if signals == [] then reg else UpsertAll(Upsert(reg, signals[0], now).0, signals[1..], now)
  }

  function CloseAbsent(reg: Registry, actives: seq<Record>, keep: set<string>, now: Stamp): Registry
    decreases actives
  {
    if actives == [] then reg
    else
      var after := if actives[0].key in keep then reg else CloseRecord(reg, actives[0], now).0;
      CloseAbsent(after, actives[1..], keep, now)
  }

  ghost function Reconcile(reg: Registry, signals: seq<Signal>, now: Stamp): Registry {
    var byKey := ByKey(signals);
    CloseAbsent(UpsertAll(reg, byKey, now), ListActive(reg.store), Keys(byKey), now)
  }

  // ----- the ledger: what a registry without batches would hold

  function LedgerUpsert(ledger: seq<Record>, s: Signal, now: Stamp): (seq<Record>, Record) {
    var i := ActiveWith(ledger, s.key);
    if i < |ledger| then (ledger[i := Refreshed(ledger[i], s)], Refreshed(ledger[i], s))
    else (ledger + [NewRecord(|ledger| + 1, s, now)], NewRecord(|ledger| + 1, s, now))
  }

  function Stopped(r: Record, now: Stamp): Record {
    r.(clearedAt := Some(now))
  }

  function LedgerClear(ledger: seq<Record>, key: string, now: Stamp): (seq<Record>, Option<Record>) {
    var i := ActiveWith(ledger, key);
    if i < |ledger| then (ledger[i := Stopped(ledger[i], now)], Some(Stopped(ledger[i], now)))
    else (ledger, None)
  }

  function LedgerConfirm(ledger: seq<Record>, id: int, now: Stamp): (seq<Record>, Result<Record, StoreError>) {
    if !(1 <= id <= |ledger|) then (ledger, Failure(UnknownId))
    else if !ledger[id - 1].Active() then (ledger, Failure(NotActive))
    else (ledger[id - 1 := Acknowledged(ledger[id - 1], now)], Success(Acknowledged(ledger[id - 1], now)))
  }

  function LedgerUpsertAll(ledger: seq<Record>, signals: seq<Signal>, now: Stamp): seq<Record>
    decreases signals
  {
    if signals == [] then ledger else LedgerUpsertAll(LedgerUpsert(ledger, signals[0], now).0, signals[1..], now)
  }

  /** Every active record whose key is not kept is stopped; nothing else changes. */
  function LedgerStop(ledger: seq<Record>, keep: set<string>, now: Stamp): (r: seq<Record>)
    ensures |r| == |ledger|
  {
    seq(|ledger|, i requires 0 <= i < |ledger| =>
      if ledger[i].Active() && ledger[i].key !in keep then Stopped(ledger[i], now) else ledger[i])
  }

  function LedgerReconcile(ledger: seq<Record>, signals: seq<Signal>, now: Stamp): seq<Record> {
    var byKey := ByKey(signals);
    LedgerStop(LedgerUpsertAll(ledger, byKey, now), Keys(byKey), now)
  }

  // ----- what every registry keeps

  ghost predicate Numbered(rs: seq<Record>) {
    forall i :: 0 <= i < |rs| ==> rs[i].alertId == i + 1
  }

  /** At most one active record per key: what the table's unique index demands. */
  ghost predicate OneActivePerKey(rs: seq<Record>) {
    forall i, j :: 0 <= i < j < |rs| && rs[i].Active() && rs[j].Active() ==> rs[i].key != rs[j].key
  }

  /** The cached count of an active record runs ahead of the stored one by less than a step. */
  ghost predicate Lagging(rs: seq<Record>, latest: map<string, int>, step: int) {
    forall i :: 0 <= i < |rs| && rs[i].Active() ==>
      rs[i].key in latest && 1 <= rs[i].occurrences <= latest[rs[i].key] < rs[i].occurrences + step
  }

  predicate ActiveAt(rs: seq<Record>, i: int, key: string) {
    0 <= i < |rs| && rs[i].Active() && rs[i].key == key
  }

  ghost predicate HasActive(rs: seq<Record>, key: string) {
    exists i :: ActiveAt(rs, i, key)
  }

  /** Counts are cached for active records only. */
  ghost predicate Owned(rs: seq<Record>, latest: map<string, int>) {
    forall key :: key in latest ==> HasActive(rs, key)
  }

  ghost predicate Tracked(rs: seq<Record>, latest: map<string, int>, step: int) {
    Lagging(rs, latest, step) && Owned(rs, latest)
  }

  ghost predicate Sound(reg: Registry) {
    && reg.store.Memory? && reg.step >= 1
    && reg.store.nextId == |reg.store.records| + 1
    && Numbered(reg.store.records)
    && OneActivePerKey(reg.store.records)
    && Tracked(reg.store.records, reg.latest, reg.step)
  }

  /** The ledger a sound registry stands for. */
  ghost function Seen(reg: Registry): seq<Record>
    requires Sound(reg)
  {
    Watch(reg.store.records, reg.latest)
  }

  lemma {:induction false} WatchKeepsActive(rs: seq<Record>, latest: map<string, int>, key: string)
    ensures ActiveWith(Watch(rs, latest), key) == ActiveWith(rs, key)
  {
    var w := Watch(rs, latest);
    var i, j := ActiveWith(rs, key), ActiveWith(w, key);
    if i < |rs| { assert w[i].Active() && w[i].key == key; }
    if j < |rs| { assert rs[j].Active() && rs[j].key == key; }
  }

  lemma IndexAt(rs: seq<Record>, i: nat)
    requires Numbered(rs) && i < |rs|
    ensures IndexOf(rs, rs[i].alertId) == i
  {
    var k := IndexOf(rs, rs[i].alertId);
    if k < |rs| { assert rs[k].alertId == k + 1; }
  }

  lemma ActiveWithFinds(rs: seq<Record>, key: string, i: int)
    requires ActiveAt(rs, i, key)
    ensures ActiveWith(rs, key) < |rs|
  {
  }

  /** Replacing a record by one of the same id and key keeps ids and active keys apart. */
  lemma PatchKeepsShape(rs: seq<Record>, i: nat, r: Record)
    requires i < |rs| && OneActivePerKey(rs) && Numbered(rs)
    requires rs[i].Active() && r.key == rs[i].key && r.alertId == rs[i].alertId
    ensures OneActivePerKey(rs[i := r]) && Numbered(rs[i := r])
  {
  }

  lemma RaiseKeepsOwned(rs: seq<Record>, latest: map<string, int>, i: nat, r: Record, count: int)
    requires i < |rs| && Owned(rs, latest) && r.Active() && r.key == rs[i].key
    ensures Owned(rs[i := r], latest[r.key := count])
  {
    var latest' := latest[r.key := count];
    forall key | key in latest' ensures HasActive(rs[i := r], key) {
      if key == r.key {
        assert ActiveAt(rs[i := r], i, key);
      } else {
        var k :| ActiveAt(rs, k, key);
        assert ActiveAt(rs[i := r], k, key);
      }
    }
  }

  lemma RaiseIsSeen(rs: seq<Record>, latest: map<string, int>, i: nat, r: Record, count: int)
    requires i < |rs| && OneActivePerKey(rs) && rs[i].Active()
    requires r.Active() && r.key == rs[i].key && r.occurrences <= count
    ensures Watch(rs[i := r], latest[r.key := count]) == Watch(rs, latest)[i := r.(occurrences := count)]
  {
    var left := Watch(rs[i := r], latest[r.key := count]);
    var right := Watch(rs, latest)[i := r.(occurrences := count)];
    forall k | 0 <= k < |rs| ensures left[k] == right[k] {
      if k != i && rs[k].Active() { assert rs[k].key != r.key; }
    }
  }

  /** Writing one record in place, or leaving it, under a raised cached count. */
  lemma RaiseKeepsTracked(rs: seq<Record>, latest: map<string, int>, step: int, i: nat, r: Record, count: int)
    requires i < |rs| && Tracked(rs, latest, step) && OneActivePerKey(rs) && Numbered(rs)
    requires rs[i].Active() && r.Active() && r.key == rs[i].key && r.alertId == rs[i].alertId
    requires 1 <= r.occurrences <= count < r.occurrences + step
    ensures Tracked(rs[i := r], latest[r.key := count], step)
    ensures OneActivePerKey(rs[i := r]) && Numbered(rs[i := r])
    ensures Watch(rs[i := r], latest[r.key := count]) == Watch(rs, latest)[i := r.(occurrences := count)]
  {
    hide Owned, Watch;
    PatchKeepsShape(rs, i, r);
    RaiseKeepsOwned(rs, latest, i, r, count);
    RaiseIsSeen(rs, latest, i, r, count);
  }

  lemma AppendKeepsOwned(rs: seq<Record>, latest: map<string, int>, r: Record)
    requires Owned(rs, latest) && r.Active()
    ensures Owned(rs + [r], latest[r.key := r.occurrences])
  {
    forall key | key in latest[r.key := r.occurrences] ensures HasActive(rs + [r], key) {
      if key == r.key {
        assert ActiveAt(rs + [r], |rs|, key);
      } else {
        var k :| ActiveAt(rs, k, key);
        assert ActiveAt(rs + [r], k, key);
      }
    }
  }

  lemma AppendKeepsShape(rs: seq<Record>, r: Record)
    requires OneActivePerKey(rs) && Numbered(rs)
    requires ActiveWith(rs, r.key) == |rs| && r.alertId == |rs| + 1
    ensures OneActivePerKey(rs + [r]) && Numbered(rs + [r])
  {
  }

  lemma WatchAppend(rs: seq<Record>, r: Record, latest: map<string, int>)
    ensures Watch(rs + [r], latest) == Watch(rs, latest) + [WithLatest(r, latest)]
  {
    hide WithLatest;
  }

  lemma OtherKeyIsSeenAlike(r: Record, latest: map<string, int>, key: string, count: int)
    requires r.Active() ==> r.key != key
    ensures WithLatest(r, latest[key := count]) == WithLatest(r, latest)
  {
  }

  lemma AppendIsSeen(rs: seq<Record>, latest: map<string, int>, r: Record)
    requires r.Active() && ActiveWith(rs, r.key) == |rs|
    ensures Watch(rs + [r], latest[r.key := r.occurrences]) == Watch(rs, latest) + [r]
  {
    var latest' := latest[r.key := r.occurrences];
    WatchAppend(rs, r, latest');
    assert WithLatest(r, latest') == r;
    hide WithLatest;
    forall k | 0 <= k < |rs| ensures WithLatest(rs[k], latest') == WithLatest(rs[k], latest) {
      OtherKeyIsSeenAlike(rs[k], latest, r.key, r.occurrences);
    }
    assert Watch(rs, latest') == Watch(rs, latest);
  }

  /** Creating a record for a key that is not active. */
  lemma CreateKeepsTracked(rs: seq<Record>, latest: map<string, int>, step: int, r: Record)
    requires Tracked(rs, latest, step) && OneActivePerKey(rs) && Numbered(rs) && step >= 1
    requires r.Active() && ActiveWith(rs, r.key) == |rs| && r.alertId == |rs| + 1 && r.occurrences >= 1
    ensures Tracked(rs + [r], latest[r.key := r.occurrences], step)
    ensures OneActivePerKey(rs + [r]) && Numbered(rs + [r])
    ensures Watch(rs + [r], latest[r.key := r.occurrences]) == Watch(rs, latest) + [r]
    ensures r.key !in latest
  {
    hide Owned, Watch;
    AppendKeepsShape(rs, r);
    AppendKeepsOwned(rs, latest, r);
    AppendIsSeen(rs, latest, r);
    NotActiveNotCached(rs, latest, r.key);
  }

  lemma CachedIsActive(rs: seq<Record>, latest: map<string, int>, key: string)
    requires Owned(rs, latest) && key in latest
    ensures ActiveWith(rs, key) < |rs|
  {
    assert HasActive(rs, key);
    var k :| ActiveAt(rs, k, key);
    ActiveWithFinds(rs, key, k);
  }

  lemma NotActiveNotCached(rs: seq<Record>, latest: map<string, int>, key: string)
    requires Owned(rs, latest) && ActiveWith(rs, key) == |rs|
    ensures key !in latest
  {
    if key in latest { CachedIsActive(rs, latest, key); }
  }

  lemma CloseKeepsOwned(rs: seq<Record>, latest: map<string, int>, i: nat, r: Record)
    requires i < |rs| && Owned(rs, latest) && r.key == rs[i].key
    ensures Owned(rs[i := r], latest - {r.key})
  {
    forall key | key in latest - {r.key} ensures HasActive(rs[i := r], key) {
      assert HasActive(rs, key);
      var k :| ActiveAt(rs, k, key);
      assert ActiveAt(rs[i := r], k, key);
    }
  }

  lemma CloseIsSeen(rs: seq<Record>, latest: map<string, int>, i: nat, r: Record)
    requires i < |rs| && OneActivePerKey(rs) && rs[i].Active() && !r.Active() && r.key == rs[i].key
    ensures Watch(rs[i := r], latest - {r.key}) == Watch(rs, latest)[i := r]
  {
    var left, right := Watch(rs[i := r], latest - {r.key}), Watch(rs, latest)[i := r];
    forall k | 0 <= k < |rs| ensures left[k] == right[k] {
      if k != i && rs[k].Active() { assert rs[k].key != r.key; }
    }
  }

  /** Closing an active record and dropping its cached count. */
  lemma CloseKeepsTracked(rs: seq<Record>, latest: map<string, int>, step: int, i: nat, r: Record)
    requires i < |rs| && Tracked(rs, latest, step) && OneActivePerKey(rs) && Numbered(rs)
    requires rs[i].Active() && !r.Active() && r.key == rs[i].key && r.alertId == rs[i].alertId
    ensures Tracked(rs[i := r], latest - {r.key}, step)
    ensures OneActivePerKey(rs[i := r]) && Numbered(rs[i := r])
    ensures Watch(rs[i := r], latest - {r.key}) == Watch(rs, latest)[i := r]
  {
    hide Owned, Watch;
    PatchKeepsShape(rs, i, r);
    CloseKeepsOwned(rs, latest, i, r);
    CloseIsSeen(rs, latest, i, r);
  }

  // ----- refinement, operation by operation

  lemma UpsertRefines(reg: Registry, s: Signal, now: Stamp)
    requires Sound(reg)
    ensures Sound(Upsert(reg, s, now).0) && Upsert(reg, s, now).0.step == reg.step
    ensures Seen(Upsert(reg, s, now).0) == LedgerUpsert(Seen(reg), s, now).0
    ensures Upsert(reg, s, now).1 == LedgerUpsert(Seen(reg), s, now).1
  {
    var rs := reg.store.records;
    var i := ActiveWith(rs, s.key);
    WatchKeepsActive(rs, reg.latest, s.key);
    if i == |rs| {
      CreateKeepsTracked(rs, reg.latest, reg.step, NewRecord(|rs| + 1, s, now));
    } else {
      var count := Max(reg.latest[s.key], s.occurrences);
      IndexAt(rs, i);
      if WriteDue(rs[i], s, count, reg.step) {
        RaiseKeepsTracked(rs, reg.latest, reg.step, i, Refreshed(rs[i], WithCount(s, count)), count);
      } else {
        RaiseKeepsTracked(rs, reg.latest, reg.step, i, rs[i], count);
        assert rs[i := rs[i]] == rs;
      }
    }
  }

  lemma CloseRefines(reg: Registry, i: nat, now: Stamp)
    requires Sound(reg) && i < |reg.store.records| && reg.store.records[i].Active()
    ensures var (after, closed) := CloseRecord(reg, reg.store.records[i], now);
            && Sound(after) && after.step == reg.step
            && Seen(after) == Seen(reg)[i := Stopped(Seen(reg)[i], now)]
            && closed == Success(Stopped(Seen(reg)[i], now))
            && after.store.records == reg.store.records[i := Stopped(Seen(reg)[i], now)]
  {
    hide Owned, OneActivePerKey, Watch;
    var rs := reg.store.records;
    var r := rs[i];
    IndexAt(rs, i);
    var stopped := Stopped(WithLatest(r, reg.latest), now);
    CloseKeepsTracked(rs, reg.latest, reg.step, i, stopped);
    ClosedIsStopped(r, reg.latest, now);
    assert CloseRecord(reg, r, now).0 ==
           Registry(Memory(rs[i := stopped], reg.store.nextId), reg.latest - {r.key}, reg.step);
  }

  lemma ClosedIsStopped(r: Record, latest: map<string, int>, now: Stamp)
    requires r.Active() && r.key in latest && 1 <= r.occurrences <= latest[r.key]
    ensures Closed(r, now, FinalOr(Some(Max(r.occurrences, latest[r.key])), r.occurrences)) ==
            Stopped(WithLatest(r, latest), now)
  {
  }

  /** clear_key closes with the exact count, whatever had been persisted. */
  lemma ClearKeyRefines(reg: Registry, key: string, now: Stamp)
    requires Sound(reg)
    ensures var (after, answer) := ClearKey(reg, key, now);
            && Sound(after) && after.step == reg.step
            && (Seen(after), answer) == LedgerClear(Seen(reg), key, now)
  {
    var rs := reg.store.records;
    WatchKeepsActive(rs, reg.latest, key);
    var i := ActiveWith(rs, key);
    if i < |rs| {
      CloseRefines(reg, i, now);
    } else {
      NotActiveNotCached(rs, reg.latest, key);
      assert reg.latest - {key} == reg.latest;
    }
  }

  lemma ConfirmActive(reg: Registry, i: nat, now: Stamp)
    requires Sound(reg) && i < |reg.store.records| && reg.store.records[i].Active()
    ensures var r := Acknowledged(reg.store.records[i], now);
            var after := Registry(Memory(reg.store.records[i := r], reg.store.nextId), reg.latest, reg.step);
            && Confirm(reg, i + 1, now) == (after, Success(WithLatest(r, reg.latest)))
            && Sound(after)
            && Seen(after) == Seen(reg)[i := Acknowledged(Seen(reg)[i], now)]
  {
    hide Owned, OneActivePerKey, Watch;
    var rs := reg.store.records;
    var r := Acknowledged(rs[i], now);
    IndexAt(rs, i);
    RaiseKeepsTracked(rs, reg.latest, reg.step, i, r, reg.latest[r.key]);
    assert reg.latest[r.key := reg.latest[r.key]] == reg.latest;
  }

  lemma ConfirmRefines(reg: Registry, id: int, now: Stamp)
    requires Sound(reg)
    ensures var (after, answer) := Confirm(reg, id, now);
            && Sound(after) && after.step == reg.step
            && (Seen(after), answer) == LedgerConfirm(Seen(reg), id, now)
  {
    hide Tracked, OneActivePerKey, IndexOf;
    var rs := reg.store.records;
    if 1 <= id <= |rs| {
      IndexAt(rs, id - 1);
      if rs[id - 1].Active() {
        hide Sound, Confirm;
        ConfirmActive(reg, id - 1, now);
      }
    } else {
      UnknownIndex(rs, id);
    }
  }

  lemma UnknownIndex(rs: seq<Record>, id: int)
    requires Numbered(rs) && !(1 <= id <= |rs|)
    ensures IndexOf(rs, id) == |rs|
  {
    forall k | 0 <= k < |rs| ensures rs[k].alertId != id {
    }
  }

  lemma {:induction false} UpsertAllRefines(reg: Registry, signals: seq<Signal>, now: Stamp)
    requires Sound(reg)
    ensures Sound(UpsertAll(reg, signals, now)) && UpsertAll(reg, signals, now).step == reg.step
    ensures Seen(UpsertAll(reg, signals, now)) == LedgerUpsertAll(Seen(reg), signals, now)
    decreases signals
  {
    hide Upsert, Sound, LedgerUpsert;
    if signals != [] {
      UpsertRefines(reg, signals[0], now);
      UpsertAllRefines(Upsert(reg, signals[0], now).0, signals[1..], now);
    }
  }
}
