/** The guarantees of the alert registry over the table of SqliteAlertStore, which is what
    the program keeps across a crash.  They carry over from the list, which answers every
    run alike. */
module AlertTable {
  import opened Common
  import opened AlertStore
  import opened AlertRegistry
  import opened AlertRuns
  import opened AlertGuarantees

  const EMPTY_TABLE: Store := Table(map[], 0)

  /** The registry over a list that holds the same records. */
  function Mirror(t: Registry): Registry
    requires t.store.Table?
  {
    Registry(Memory(Everything(t.store), t.store.lastId + 1), t.latest, t.step)
  }

  ghost predicate TableSound(t: Registry) {
    t.store.Table? && Twins(Mirror(t), t)
  }

  /** All records as clients see them. */
  function Shown(t: Registry): seq<Record> {
    Watch(Everything(t.store), t.latest)
  }

  lemma TwinIsMirror(m: Registry, t: Registry)
    requires Twins(m, t)
    ensures TableSound(t) && m == Mirror(t) && Shown(t) == Seen(m) && |Shown(t)| == |m.store.records|
  {
    SameQueries(m.store, t.store, 0);
    hide Tracked, Numbered, OneActivePerKey, Everything, Watch;
  }

  /** Row i + 1 is record i. */
  lemma RowIsRecord(t: Registry, i: nat)
    requires TableSound(t) && i < |Everything(t.store)|
    ensures i + 1 in t.store.rows && t.store.rows[i + 1] == Everything(t.store)[i]
  {
    hide Tracked, Numbered, OneActivePerKey, Everything;
  }

  lemma EmptyTableIsSound(step: int)
    requires step >= 1
    ensures TableSound(Open(EMPTY_TABLE, step))
  {
    OpenEmptySound(step);
    assert Twins(Open(EMPTY, step), Open(EMPTY_TABLE, step));
    TwinIsMirror(Open(EMPTY, step), Open(EMPTY_TABLE, step));
  }

  lemma RunKeepsTableSound(t: Registry, ops: seq<Op>)
    requires TableSound(t)
    ensures TableSound(Run(t, ops).0) && Mirror(Run(t, ops).0) == Run(Mirror(t), ops).0
    ensures Run(t, ops).0.step == t.step
  {
    TwinRun(Mirror(t), t, ops);
    RunRefines(Mirror(t), ops);
    hide Run, Tracked, Numbered, OneActivePerKey, Related;
    TwinIsMirror(Run(Mirror(t), ops).0, Run(t, ops).0);
  }

  /** A stored count is at most the one shown and less than a step behind it. */
  lemma TableLagsByLessThanStep(t: Registry, i: nat)
    requires TableSound(t) && i < |Shown(t)|
    ensures var stored, shown := t.store.rows[i + 1].occurrences, Shown(t)[i].occurrences;
            stored <= shown < stored + t.step
  {
    RowIsRecord(t, i);
    StoredCountLagsByLessThanStep(Mirror(t), i);
    hide Everything;
  }

  /** Rebuilding the registry from the table after a crash shows the same records, each
      count short by less than a step. */
  lemma TableCrashLosesLessThanStep(t: Registry, step: int)
    requires TableSound(t) && step >= 1
    ensures var back := Open(t.store, step);
            && TableSound(back) && |Shown(back)| == |Shown(t)|
            && forall i :: 0 <= i < |Shown(t)| ==>
                 && Shown(back)[i] == Shown(t)[i].(occurrences := Shown(back)[i].occurrences)
                 && Shown(t)[i].occurrences - t.step < Shown(back)[i].occurrences <= Shown(t)[i].occurrences
  {
    var m := Mirror(t);
    CrashLosesLessThanStep(m, step);
    SameQueries(m.store, t.store, 0);
    hide Tracked, Numbered, OneActivePerKey, Everything, Watch, ListActive, CountsOf, Related;
    TwinIsMirror(m, t);
    assert Twins(Open(m.store, step), Open(t.store, step));
    TwinIsMirror(Open(m.store, step), Open(t.store, step));
  }

  /** How many operations of a run wrote only the count of this row. */
  ghost function RowWrites(t: Registry, ops: seq<Op>, id: int): nat
    requires TableSound(t) && id in t.store.rows
    decreases ops
  {
    if ops == [] then 0
    else
      RowStays(t, ops[0], id);
      var after := Apply(t, ops[0]).0;
      (if CountOnlyWrite(t.store.rows[id], after.store.rows[id]) then 1 else 0) + RowWrites(after, ops[1..], id)
  }

  lemma RowStays(t: Registry, op: Op, id: int)
    requires TableSound(t) && id in t.store.rows
    ensures var after := Apply(t, op).0;
            && TableSound(after) && id in after.store.rows && Mirror(after) == Apply(Mirror(t), op).0
            && 0 <= id - 1 < |Everything(t.store)| && t.store.rows[id] == Everything(t.store)[id - 1]
            && id - 1 < |Everything(after.store)| && after.store.rows[id] == Everything(after.store)[id - 1]
  {
    IdIsPosition(t, id);
    RowIsRecord(t, id - 1);
    TwinApply(Mirror(t), t, op);
    ApplyProgress(Mirror(t), op, id - 1);
    hide Apply, Tracked, Numbered, OneActivePerKey, Related, Everything, Progress;
    TwinIsMirror(Apply(Mirror(t), op).0, Apply(t, op).0);
    RowIsRecord(Apply(t, op).0, id - 1);
  }

  lemma IdIsPosition(t: Registry, id: int)
    requires TableSound(t) && id in t.store.rows
    ensures 0 <= id - 1 < |Everything(t.store)|
  {
    hide Tracked, Everything;
  }

  lemma {:induction false} RowWritesAreCounted(t: Registry, ops: seq<Op>, id: int)
    requires TableSound(t) && id in t.store.rows
    ensures 0 <= id - 1 < |Mirror(t).store.records|
    ensures RowWrites(t, ops, id) == CountOnlyWrites(Mirror(t), ops, id - 1)
    decreases ops
  {
    IdIsPosition(t, id);
    hide Tracked, Numbered, OneActivePerKey, Related, Everything, Apply, CountOnlyWrite;
    if ops != [] {
      RowStays(t, ops[0], id);
      RowWritesAreCounted(Apply(t, ops[0]).0, ops[1..], id);
    }
  }

  /** Over any run, count-only writes to a row times the step never exceed the growth of
      its stored count. */
  lemma TableWritesAreAmortised(t: Registry, ops: seq<Op>, id: int)
    requires TableSound(t) && id in t.store.rows
    ensures var end := Run(t, ops).0;
            && TableSound(end) && id in end.store.rows
            && RowWrites(t, ops, id) * t.step <= end.store.rows[id].occurrences - t.store.rows[id].occurrences
  {
    hide *;
    MirrorIsSound(t);
    IdIsPosition(t, id);
    RowInMirror(t, id - 1);
    RowWritesAreCounted(t, ops, id);
    WritesAreAmortised(Mirror(t), ops, id - 1);
    RunKeepsTableSound(t, ops);
    MirrorIsSound(Run(t, ops).0);
    RowInMirror(Run(t, ops).0, id - 1);
  }

  lemma MirrorIsSound(t: Registry)
    requires TableSound(t)
    ensures t.store.Table? && Sound(Mirror(t)) && Mirror(t).step == t.step && Mirror(t).store.Memory?
    ensures Mirror(t).store.records == Everything(t.store)
  {
    hide Tracked, Related, Everything;
  }

  lemma RowInMirror(t: Registry, i: nat)
    requires TableSound(t) && i < |Everything(t.store)|
    ensures i + 1 in t.store.rows && t.store.rows[i + 1] == Everything(t.store)[i]
    ensures Mirror(t).store.records[i] == Everything(t.store)[i]
  {
    RowIsRecord(t, i);
  }

  /** Over the table, too, registries that batch by different steps answer alike. */
  lemma TableStepIsInvisible(s: int, u: int, ops: seq<Op>, limit: nat)
    requires s >= 1 && u >= 1
    ensures var (a, answersA) := Run(Open(EMPTY_TABLE, s), ops);
            var (b, answersB) := Run(Open(EMPTY_TABLE, u), ops);
            && answersA == answersB
            && ActiveView(a) == ActiveView(b) && HistoryView(a, limit) == HistoryView(b, limit)
  {
    StoresAreIndistinguishable(s, ops, limit);
    StoresAreIndistinguishable(u, ops, limit);
    StepIsInvisible(s, u, ops, limit);
    hide Run, ActiveView, HistoryView, Open;
  }

  // ----- crash after crash

  /** A life of the program: a run, a crash, and a start from the table. */
  ghost function Lives(t: Registry, lives: seq<seq<Op>>): Registry
    decreases lives
  {
    if lives == [] then t
    else
      var end := Run(t, lives[0]).0;
      Lives(Open(end.store, end.step), lives[1..])
  }

  /** However often the program crashes, the table holds the records of a sound registry. */
  lemma {:induction false} EveryLifeIsSound(t: Registry, lives: seq<seq<Op>>)
    requires TableSound(t)
    ensures TableSound(Lives(t, lives))
    decreases lives
  {
    hide TableSound, Run, Open;
    if lives != [] {
      RunKeepsTableSound(t, lives[0]);
      var end := Run(t, lives[0]).0;
      StepIsPositive(end);
      TableCrashLosesLessThanStep(end, end.step);
      EveryLifeIsSound(Open(end.store, end.step), lives[1..]);
    }
  }

  /** From the empty table, through any number of runs and crashes: every stored count is
      less than a step behind the one shown. */
  lemma LivesFromEmptyTable(step: int, lives: seq<seq<Op>>, i: nat)
    requires step >= 1
    ensures var t := Lives(Open(EMPTY_TABLE, step), lives);
            && TableSound(t)
            && (i < |Shown(t)| ==>
                  i + 1 in t.store.rows &&
                  t.store.rows[i + 1].occurrences <= Shown(t)[i].occurrences
                    < t.store.rows[i + 1].occurrences + t.step)
  {
    EmptyTableIsSound(step);
    hide *;
    EveryLifeIsSound(Open(EMPTY_TABLE, step), lives);
    var t := Lives(Open(EMPTY_TABLE, step), lives);
    if i < |Shown(t)| {
      ShownIsEverything(t);
      RowIsRecord(t, i);
      TableLagsByLessThanStep(t, i);
    }
  }

  lemma ShownIsEverything(t: Registry)
    ensures |Shown(t)| == |Everything(t.store)|
  {
  }

  lemma StepIsPositive(t: Registry)
    requires TableSound(t)
    ensures t.step >= 1
  {
    hide Tracked, Related;
  }
}
