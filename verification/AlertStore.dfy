/** Alert records and the two stores that keep them: the list of
    MemoryAlertStore (src/ventilation_core/application/alert_registry.py) and the
    table of SqliteAlertStore (src/ventilation_core/infrastructure/sqlite_alert_store.py).

    Each store is a class proved against functions on values of type Store.  The
    two differ in detail (the table keeps rows by id, has a unique index on active
    keys, and lets clear touch a cleared row); the last part shows when they agree.
 */
module AlertStore {
  import opened Common

  // ----- signals and records

  /** code, source, severity, message and detail travel together. */
  datatype Meta = Meta(code: string, source: string, severity: string, message: string, detail: string)

  datatype RawSignal = RawSignal(key: string, meta: Meta, occurrences: int)
  {
    predicate Valid() {
      key != "" && meta.source != "" && meta.message != "" && occurrences >= 1
    }
  }

  type Signal = s: RawSignal | s.Valid()
    witness RawSignal("k", Meta("c", "s", "w", "m", ""), 1)

  /** An ISO time stamp: text that is not empty. */
  type Stamp = s: string | s != "" witness "t"

  datatype Record = Record(
    alertId: int, key: string, meta: Meta, activeSince: Stamp,
    acknowledgedAt: Option<Stamp>, clearedAt: Option<Stamp>, occurrences: int)
  {
    predicate Active() { clearedAt.None? }
  }

  datatype StoreError = UnknownId | NotActive | UniqueViolation

  // ----- the stores as values

  datatype Store =
    | Memory(records: seq<Record>, nextId: int)
    | Table(rows: map<int, Record>, lastId: nat)

  function NewRecord(id: int, s: Signal, since: Stamp): Record {
    Record(id, s.key, s.meta, since, None, None, s.occurrences)
  }

  /** Rows with ids 1..n in ascending order. */
  function RowsUpTo(rows: map<int, Record>, n: nat): seq<Record> {
    if n == 0 then []
    else RowsUpTo(rows, n - 1) + if n in rows then [rows[n]] else []
  }

  /** All records, oldest first. */
  function Everything(st: Store): seq<Record> {
    match st
    case Memory(records, _) => records
    case Table(rows, lastId) => RowsUpTo(rows, lastId)
  }

  function OnlyActive(rs: seq<Record>): (r: seq<Record>)
    ensures forall x :: x in r <==> x in rs && x.Active()
  {
    if rs == [] then []
    else
      var rest := OnlyActive(rs[..|rs| - 1]);
      assert rs == rs[..|rs| - 1] + [rs[|rs| - 1]];
      if rs[|rs| - 1].Active() then rest + [rs[|rs| - 1]] else rest
  }

  function ListActive(st: Store): seq<Record> {
    OnlyActive(Everything(st))
  }

  function Reversed<T>(s: seq<T>): (r: seq<T>)
    ensures |r| == |s|
    ensures forall i :: 0 <= i < |s| ==> r[i] == s[|s| - 1 - i]
  {
    if s == [] then [] else [s[|s| - 1]] + Reversed(s[..|s| - 1])
  }

  /** ORDER BY alert_id DESC LIMIT limit, over the ids 1..n. */
  function NewestRows(rows: map<int, Record>, n: nat, limit: nat): seq<Record> {
    if n == 0 || limit == 0 then []
    else if n in rows then [rows[n]] + NewestRows(rows, n - 1, limit - 1)
    else NewestRows(rows, n - 1, limit)
  }

  /** The newest records first, at most limit of them. */
  function ListHistory(st: Store, limit: nat): seq<Record> {
    match st
    case Memory(records, _) => Reversed(records[if limit <= |records| then |records| - limit else 0..])
    case Table(rows, lastId) => NewestRows(rows, lastId, limit)
  }

  /** Position of the record with this id, or the length when there is none. */
  function IndexOf(rs: seq<Record>, id: int): (i: nat)
    ensures i <= |rs|
    ensures i < |rs| ==> rs[i].alertId == id
    ensures forall k :: 0 <= k < i ==> rs[k].alertId != id
  {
    if rs == [] || rs[0].alertId == id then 0 else 1 + IndexOf(rs[1..], id)
  }

  function ReplaceById(rs: seq<Record>, updated: Record): seq<Record> {
    var i := IndexOf(rs, updated.alertId);
    if i < |rs| then rs[i := updated] else rs
  }

  ghost predicate ActiveKeyTaken(rows: map<int, Record>, key: string) {
    exists id :: id in rows && rows[id].Active() && rows[id].key == key
  }

  ghost function Create(st: Store, s: Signal, since: Stamp): (Store, Result<Record, StoreError>) {
    match st
    case Memory(records, nextId) =>
      var r := NewRecord(nextId, s, since);
      (Memory(records + [r], nextId + 1), Success(r))
    case Table(rows, lastId) =>
      if ActiveKeyTaken(rows, s.key) then (st, Failure(UniqueViolation))
      else
        var r := NewRecord(lastId + 1, s, since);
        (Table(rows[lastId + 1 := r], lastId + 1), Success(r))
  }

  function Refreshed(r: Record, s: Signal): Record {
    r.(meta := s.meta, occurrences := Max(r.occurrences, s.occurrences))
  }

  /** Both stores are handed the caller's copy of the record; the table uses only its
      id and its count, the list writes the whole copy back. */
  function UpdateActive(st: Store, r: Record, s: Signal): (Store, Result<Record, StoreError>) {
    match st
    case Memory(records, nextId) =>
      if IndexOf(records, r.alertId) == |records| then (st, Failure(UnknownId))
      else (Memory(ReplaceById(records, Refreshed(r, s)), nextId), Success(Refreshed(r, s)))
    case Table(rows, lastId) =>
      if r.alertId !in rows then (st, Failure(UnknownId))
      else
        var row := rows[r.alertId];
        if !row.Active() then (st, Success(row))
        else
          var updated := row.(meta := s.meta, occurrences := Max(r.occurrences, s.occurrences));
          (Table(rows[r.alertId := updated], lastId), Success(updated))
  }

  function Acknowledged(r: Record, at: Stamp): Record {
    if r.acknowledgedAt.Some? then r else r.(acknowledgedAt := Some(at))
  }

  function Acknowledge(st: Store, id: int, at: Stamp): (Store, Result<Record, StoreError>) {
    match st
    case Memory(records, nextId) =>
      var i := IndexOf(records, id);
      if i == |records| then (st, Failure(UnknownId))
      else if !records[i].Active() then (st, Failure(NotActive))
      else (Memory(ReplaceById(records, Acknowledged(records[i], at)), nextId), Success(Acknowledged(records[i], at)))
    case Table(rows, lastId) =>
      if id !in rows then (st, Failure(UnknownId))
      else if !rows[id].Active() then (st, Failure(NotActive))
      else (Table(rows[id := Acknowledged(rows[id], at)], lastId), Success(Acknowledged(rows[id], at)))
  }

  function Closed(r: Record, at: Stamp, final: int): Record {
    r.(clearedAt := Some(at), occurrences := Max(r.occurrences, final))
  }

  /** Python's "final_occurrences or record.occurrences". */
  function FinalOr(final: Option<int>, count: int): int {
    if final.None? || final.value == 0 then count else final.value
  }

  function Clear(st: Store, id: int, at: Stamp, final: Option<int>): (Store, Result<Record, StoreError>) {
    match st
    case Memory(records, nextId) =>
      var i := IndexOf(records, id);
      if i == |records| then (st, Failure(UnknownId))
      else if !records[i].Active() then (st, Success(records[i]))
      else
        var updated := Closed(records[i], at, FinalOr(final, records[i].occurrences));
        (Memory(ReplaceById(records, updated), nextId), Success(updated))
    case Table(rows, lastId) =>
      if id !in rows then (st, Failure(UnknownId))
      else
        var row := rows[id];
        var count := Max(row.occurrences, FinalOr(final, row.occurrences));
        var updated := row.(clearedAt := if row.clearedAt.Some? then row.clearedAt else Some(at),
                            occurrences := count);
        (Table(rows[id := updated], lastId), Success(updated))
  }

  // ----- the in-memory store

  class MemoryAlertStore {
    var records: seq<Record>
    var nextId: int

    ghost function View(): Store
      reads this
    {
      Memory(records, nextId)
    }

    constructor ()
      ensures View() == Memory([], 1)
    {
      records, nextId := [], 1;
    }

    method ActiveOnes() returns (r: seq<Record>)
      ensures r == ListActive(View())
    {
      r := [];
      for n := 0 to |records|
        invariant r == OnlyActive(records[..n])
      {
        assert records[..n + 1][..n] == records[..n];
        if records[n].Active() {
          r := r + [records[n]];
        }
      }
      assert records[..|records|] == records;
    }

    method History(limit: nat) returns (r: seq<Record>)
      ensures r == ListHistory(View(), limit)
    {
      r := Reversed(records[if limit <= |records| then |records| - limit else 0..]);
    }

    method Find(id: int) returns (i: nat)
      ensures i == IndexOf(records, id)
    {
      i := 0;
      while i < |records|
        invariant i <= |records| && IndexOf(records, id) == i + IndexOf(records[i..], id)
      {
        if records[i].alertId == id {
          return;
        }
        assert records[i..][1..] == records[i + 1..];
        i := i + 1;
      }
    }

    method Replace(updated: Record) returns (found: bool)
      modifies this
      ensures found <==> IndexOf(old(records), updated.alertId) < |old(records)|
      ensures records == ReplaceById(old(records), updated) && nextId == old(nextId)
    {
      var i := Find(updated.alertId);
      found := i < |records|;
      if found {
        records := records[i := updated];
      }
    }

    method Add(s: Signal, since: Stamp) returns (r: Result<Record, StoreError>)
      modifies this
      ensures (View(), r) == Create(old(View()), s, since)
    {
      var record := NewRecord(nextId, s, since);
      nextId := nextId + 1;
      records := records + [record];
      r := Success(record);
    }

    method Update(record: Record, s: Signal) returns (r: Result<Record, StoreError>)
      modifies this
      ensures (View(), r) == UpdateActive(old(View()), record, s)
    {
      var updated := Refreshed(record, s);
      var found := Replace(updated);
      r := if found then Success(updated) else Failure(UnknownId);
    }

    method Confirm(id: int, at: Stamp) returns (r: Result<Record, StoreError>)
      modifies this
      ensures (View(), r) == Acknowledge(old(View()), id, at)
    {
      var i := Find(id);
      if i == |records| {
        return Failure(UnknownId);
      }
      if !records[i].Active() {
        return Failure(NotActive);
      }
      var updated := Acknowledged(records[i], at);
      var _ := Replace(updated);
      r := Success(updated);
    }

    method Close(id: int, at: Stamp, final: Option<int>) returns (r: Result<Record, StoreError>)
      modifies this
      ensures (View(), r) == Clear(old(View()), id, at, final)
    {
      var i := Find(id);
      if i == |records| {
        return Failure(UnknownId);
      }
      if !records[i].Active() {
        return Success(records[i]);
      }
      var updated := Closed(records[i], at, FinalOr(final, records[i].occurrences));
      var _ := Replace(updated);
      r := Success(updated);
    }
  }

  // ----- the table

  class SqliteAlertStore {
    var rows: map<int, Record>
    var lastId: nat

    ghost function View(): Store
      reads this
    {
      Table(rows, lastId)
    }

    constructor ()
      ensures View() == Table(map[], 0)
    {
      rows, lastId := map[], 0;
    }

    method ActiveOnes() returns (r: seq<Record>)
      ensures r == ListActive(View())
    {
      r := OnlyActive(RowsUpTo(rows, lastId));
    }

    method History(limit: nat) returns (r: seq<Record>)
      ensures r == ListHistory(View(), limit)
    {
      r := NewestRows(rows, lastId, limit);
    }

    method Add(s: Signal, since: Stamp) returns (r: Result<Record, StoreError>)
      modifies this
      ensures (View(), r) == Create(old(View()), s, since)
    {
      if exists id | id in rows :: rows[id].Active() && rows[id].key == s.key {
        return Failure(UniqueViolation);
      }
      var record := NewRecord(lastId + 1, s, since);
      lastId := lastId + 1;
      rows := rows[lastId := record];
      r := Success(record);
    }

    method Update(record: Record, s: Signal) returns (r: Result<Record, StoreError>)
      modifies this
      ensures (View(), r) == UpdateActive(old(View()), record, s)
    {
      var id := record.alertId;
      if id in rows && rows[id].Active() {
        rows := rows[id := rows[id].(meta := s.meta, occurrences := Max(record.occurrences, s.occurrences))];
      }
      r := if id in rows then Success(rows[id]) else Failure(UnknownId);
    }

    method Confirm(id: int, at: Stamp) returns (r: Result<Record, StoreError>)
      modifies this
      ensures (View(), r) == Acknowledge(old(View()), id, at)
    {
      if id in rows && rows[id].Active() {
        rows := rows[id := Acknowledged(rows[id], at)];
        r := Success(rows[id]);
      } else if id !in rows {
        r := Failure(UnknownId);
      } else {
        r := Failure(NotActive);
      }
    }

    method Close(id: int, at: Stamp, final: Option<int>) returns (r: Result<Record, StoreError>)
      modifies this
      ensures (View(), r) == Clear(old(View()), id, at, final)
    {
      if id !in rows {
        return Failure(UnknownId);
      }
      var row := rows[id];
      rows := rows[id := row.(clearedAt := if row.clearedAt.Some? then row.clearedAt else Some(at),
                              occurrences := Max(row.occurrences, FinalOr(final, row.occurrences)))];
      r := Success(rows[id]);
    }
  }

  // ----- when list and table agree

  /** Ids count up from one, and the table holds exactly the list. */
  ghost predicate Related(m: Store, t: Store) {
    && m.Memory? && t.Table?
    && m.nextId == |m.records| + 1 && t.lastId == |m.records|
    && (forall i :: 0 <= i < |m.records| ==> m.records[i].alertId == i + 1)
    && (forall id :: id in t.rows <==> 1 <= id <= |m.records|)
    && (forall i :: 0 <= i < |m.records| ==> t.rows[i + 1] == m.records[i])
  }

  lemma {:induction false} RelatedRows(m: Store, t: Store, n: nat)
    requires Related(m, t) && n <= |m.records|
    ensures RowsUpTo(t.rows, n) == m.records[..n]
  {
    if n > 0 {
      RelatedRows(m, t, n - 1);
      assert m.records[..n] == m.records[..n - 1] + [m.records[n - 1]];
      assert t.rows[(n - 1) + 1] == m.records[n - 1];
    }
  }

  lemma {:induction false} RelatedHistory(m: Store, t: Store, n: nat, limit: nat)
    requires Related(m, t) && n <= |m.records|
    ensures NewestRows(t.rows, n, limit) == Reversed(m.records[if limit <= n then n - limit else 0..n])
  {
    if n > 0 && limit > 0 {
      RelatedHistory(m, t, n - 1, limit - 1);
      var from := if limit <= n then n - limit else 0;
      var part := m.records[from..n];
      assert part[..|part| - 1] == m.records[from..n - 1];
      assert t.rows[(n - 1) + 1] == m.records[n - 1];
    }
  }

  /** Related stores give the same answers to both queries. */
  lemma SameQueries(m: Store, t: Store, limit: nat)
    requires Related(m, t)
    ensures Everything(m) == Everything(t)
    ensures ListActive(m) == ListActive(t)
    ensures ListHistory(m, limit) == ListHistory(t, limit)
  {
    RelatedRows(m, t, |m.records|);
    RelatedHistory(m, t, |m.records|, limit);
    assert m.records[..|m.records|] == m.records;
    var from := if limit <= |m.records| then |m.records| - limit else 0;
    assert m.records[from..] == m.records[from..|m.records|];
  }

  lemma IndexInRelated(m: Store, t: Store, id: int)
    requires Related(m, t)
    ensures 1 <= id <= |m.records| ==> IndexOf(m.records, id) == id - 1
    ensures !(1 <= id <= |m.records|) ==> IndexOf(m.records, id) == |m.records|
  {
    var i := IndexOf(m.records, id);
    if 1 <= id <= |m.records| {
      assert m.records[id - 1].alertId == id;
    }
  }

  /** Creating agrees unless the key is already active, which only the table refuses. */
  lemma SameCreate(m: Store, t: Store, s: Signal, since: Stamp)
    requires Related(m, t)
    requires forall r :: r in m.records && r.Active() ==> r.key != s.key
    ensures Related(Create(m, s, since).0, Create(t, s, since).0)
    ensures Create(m, s, since).1 == Create(t, s, since).1
    ensures Create(t, s, since).1.Success?
  {
    forall id | id in t.rows ensures !(t.rows[id].Active() && t.rows[id].key == s.key) {
      assert t.rows[(id - 1) + 1] == m.records[id - 1];
      assert m.records[id - 1] in m.records;
    }
  }

  /** Updating agrees when the caller's copy is the stored record and it is active. */
  lemma SameUpdate(m: Store, t: Store, r: Record, s: Signal)
    requires Related(m, t) && r in m.records && r.Active()
    ensures Related(UpdateActive(m, r, s).0, UpdateActive(t, r, s).0)
    ensures UpdateActive(m, r, s).1 == UpdateActive(t, r, s).1
  {
    IndexInRelated(m, t, r.alertId);
    assert t.rows[(r.alertId - 1) + 1] == m.records[r.alertId - 1];
  }

  lemma SameAcknowledge(m: Store, t: Store, id: int, at: Stamp)
    requires Related(m, t)
    ensures Related(Acknowledge(m, id, at).0, Acknowledge(t, id, at).0)
    ensures Acknowledge(m, id, at).1 == Acknowledge(t, id, at).1
  {
    IndexInRelated(m, t, id);
    if 1 <= id <= |m.records| {
      assert t.rows[(id - 1) + 1] == m.records[id - 1];
    }
  }

  /** Clearing agrees exactly when the record is active or unknown, or the final
      count does not exceed the stored one: the table lets a later clear raise the
      count of a record that is already cleared. */
  lemma SameClear(m: Store, t: Store, id: int, at: Stamp, final: Option<int>)
    requires Related(m, t)
    ensures (Related(Clear(m, id, at, final).0, Clear(t, id, at, final).0) &&
             Clear(m, id, at, final).1 == Clear(t, id, at, final).1)
            <==> (1 <= id <= |m.records| && !m.records[id - 1].Active() ==>
                    FinalOr(final, m.records[id - 1].occurrences) <= m.records[id - 1].occurrences)
  {
    IndexInRelated(m, t, id);
    if 1 <= id <= |m.records| {
      assert t.rows[(id - 1) + 1] == m.records[id - 1];
    }
  }
}
