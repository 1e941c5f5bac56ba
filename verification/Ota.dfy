/** OtaCoordinator of src/ventilation_core/service_ota.py: all its worker threads
    together with the callers of start_install.

    A worker thread installs an image on one node.  Between two of its writes to the
    shared table of operations it only talks to its node, so one step of a worker is the
    answer it got together with the write that follows it.  A write assigns the table
    first and then the file; a failed file write raises after the assignment. */
module Ota {
  import opened Common

  type Node = nat

  datatype OpState =
    | Queued | Preflight | Authorizing | Uploading | Reconciling | Rebooting | Validating
    | Succeeded | Failed | RolledBack | Uncertain

  predicate Terminal(s: OpState) {
    s in {Succeeded, Failed, RolledBack, Uncertain}
  }

  datatype Partition = Ota0 | Ota1 | Unsupported

  function Other(p: Partition): Partition {
    if p.Ota0? then Ota1 else Ota0
  }

  datatype Pending = Yes | No | Missing

  datatype Activity = Idle | Error | Busy

  datatype Remote = Remote(node: Node, partition: Partition, pending: Pending, activity: Activity)

  predicate Confirms(r: Remote, mine: Node, partition: Partition, pending: Pending) {
    r.node == mine && r.partition == partition && r.pending == pending
  }

  datatype Operation = Operation(id: nat, state: OpState, source: Option<Partition>, bytes: nat, remote: Option<Remote>)

  /** What a worker learns from its node, or from its clock.  Answer, NoAnswer and Crash end
      a status request, the next four an upload. */
  datatype Event =
    | Go
    | Answer(remote: Remote)
    | NoAnswer                                   // ServiceOtaError
    | Crash                                      // any other exception
    | Progress(written: nat, size: nat)
    | Accepted(target: Partition, written: nat)
    | Lost(size: nat)                            // ServiceOtaUncertainError
    | Refused                                    // ServiceOtaError or any other exception
    | Timeout

  /** disk: whether the file write of the turn succeeds. */
  datatype Turn = Turn(event: Event, disk: bool)

  datatype Phase =
    | Begin
    | Probing
    | Installing(source: Partition)
    | Aborted(source: Partition, sent: Option<nat>)  // progress was not written; Some: all bytes were sent
    | Polling(source: Partition, lost: bool, saw: bool)
    | Judging(source: Partition, lost: bool, saw: bool, remote: Remote)
    | Handling                                       // a file write of the try block failed
    | Done

  /** A worker's place in its program together with the operation it works on. */
  datatype Job = Job(phase: Phase, op: Operation)

  // ----- _run_install from one write to the next

  /** The try block raises: the write of this turn is the one of the except clause. */
  predicate Raises(mine: Node, phase: Phase, event: Event) {
    match phase
    case Probing =>
      event.NoAnswer? || event.Crash? ||
      (event.Answer? && (event.remote.node != mine || event.remote.partition.Unsupported?))
    case Installing(source) => event.Refused? || (event.Accepted? && event.target != Other(source))
    case Aborted(_, sent) => sent.None?
    case Polling(_, _, _) => event.Crash?
    case Judging(_, _, _, remote) => remote.node != mine
    case Handling => true
    case _ => false
  }

  function Write(job: Job, phase: Phase, state: OpState): Job {
    Job(phase, job.op.(state := state))
  }

  function Advance(mine: Node, job: Job, event: Event): Job {
    if Raises(mine, job.phase, event) then Write(job, Done, Failed)
    else
      match job.phase
      case Begin => Write(job, Probing, Preflight)
      case Probing => Probed(job, event)
      case Installing(source) => Installed(job, source, event)
      case Aborted(source, sent) => Reconciled(job, source, if sent.Some? then sent.value else 0)
      case Polling(source, lost, saw) => Polled(job, source, lost, saw, event)
      case Judging(source, lost, saw, remote) => Judged(job, source, lost, saw, remote)
      case _ => job
  }

  function Probed(job: Job, event: Event): Job {
    match event
    case Answer(r) =>
      Job(Installing(r.partition), job.op.(state := Authorizing, source := Some(r.partition), remote := Some(r)))
    case _ => job
  }

  function Installed(job: Job, source: Partition, event: Event): Job {
    match event
    case Progress(written, _) => Job(job.phase, job.op.(state := Uploading, bytes := written))
    case Accepted(_, written) => Job(Polling(source, false, false), job.op.(state := Rebooting, bytes := written))
    case Lost(size) => Reconciled(job, source, size)
    case _ => job
  }

  function Reconciled(job: Job, source: Partition, size: nat): Job {
    Job(Polling(source, true, false), job.op.(state := Reconciling, bytes := size))
  }

  function Polled(job: Job, source: Partition, lost: bool, saw: bool, event: Event): Job {
    match event
    case Answer(r) =>
      Job(Judging(source, lost, saw, r),
          job.op.(state := if lost then Reconciling else Validating, remote := Some(r)))
    case Timeout => Write(job, Done, Uncertain)
    case _ => job
  }

  function Judged(job: Job, source: Partition, lost: bool, saw: bool, r: Remote): Job {
    if r.partition == Other(source) && r.pending.Yes? then job.(phase := Polling(source, lost, true))
    else if r.partition == Other(source) && r.pending.No? then Write(job, Done, Succeeded)
    else if r.pending.No? && r.partition == source && saw then Write(job, Done, RolledBack)
    else if lost && r.pending.No? && r.partition == source && !r.activity.Busy? then Write(job, Done, Failed)
    else job.(phase := Polling(source, lost, saw))
  }

  /** The turn calls _set. */
  predicate Writes(mine: Node, job: Job, event: Event) {
    var next := Advance(mine, job, event).phase;
    (job.phase.Installing? && event.Progress?) || (next != job.phase && !(job.phase.Judging? && next.Polling?))
  }

  /** Where a failed file write leads: out of the except clause the thread ends; out of the
      progress callback it ends the upload; otherwise to the except clause. */
  function AfterFault(mine: Node, phase: Phase, event: Event): Phase {
    if Raises(mine, phase, event) then Done
    else if phase.Installing? && event.Progress? then
      Aborted(phase.source, if event.written >= event.size then Some(event.size) else None)
    else Handling
  }

  /** One turn of a worker. */
  function Act(mine: Node, job: Job, turn: Turn): Job {
    var next := Advance(mine, job, turn.event);
    if turn.disk || !Writes(mine, job, turn.event) then next
    else Job(AfterFault(mine, job.phase, turn.event), next.op)
  }

  /** The turn's write ends the operation, and it stands in the try block. */
  predicate EndsInTry(mine: Node, phase: Phase, event: Event) {
    match phase
    case Polling(_, _, _) => event.Timeout?
    case Judging(source, lost, saw, r) =>
      r.node == mine && r.pending.No? &&
      (r.partition == Other(source) || (r.partition == source && (saw || (lost && !r.activity.Busy?))))
    case _ => false
  }

  function Fold(mine: Node, job: Job, turns: seq<Turn>): Job
    decreases |turns|
  {
    if turns == [] then job else Act(mine, Fold(mine, job, turns[..|turns| - 1]), turns[|turns| - 1])
  }

  lemma FoldLast(mine: Node, job: Job, seen: seq<Turn>, turn: Turn)
    ensures Fold(mine, job, seen + [turn]) == Act(mine, Fold(mine, job, seen), turn)
  {
    hide Act;
    assert (seen + [turn])[..|seen|] == seen;
  }

  // ----- what a worker reports rests on what it saw

  function Fresh(id: nat): Operation {
    Operation(id, Queued, None, 0, None)
  }

  function WorkerAfter(mine: Node, id: nat, seen: seq<Turn>): Job {
    Fold(mine, Job(Begin, Fresh(id)), seen)
  }

  /** In turn i the poll loop got this answer from its own node. */
  ghost predicate PolledAt(mine: Node, id: nat, seen: seq<Turn>, i: nat, partition: Partition, pending: Pending) {
    && i < |seen| && WorkerAfter(mine, id, seen[..i]).phase.Polling?
    && seen[i].event.Answer? && Confirms(seen[i].event.remote, mine, partition, pending)
  }

  ghost predicate PolledBefore(mine: Node, id: nat, seen: seq<Turn>, n: nat, partition: Partition, pending: Pending) {
    exists i: nat :: i < n && PolledAt(mine, id, seen, i, partition, pending)
  }

  ghost predicate RolledBackIn(mine: Node, id: nat, seen: seq<Turn>, source: Partition) {
    exists j: nat :: PolledAt(mine, id, seen, j, source, No) && PolledBefore(mine, id, seen, j, Other(source), Yes)
  }

  predicate HasSource(p: Phase) {
    p.Installing? || p.Aborted? || p.Polling? || p.Judging?
  }

  predicate SomeSlot(p: Partition) {
    !p.Unsupported?
  }

  /** What the phase and the operation of a worker say about its turns. */
  ghost predicate Founded(mine: Node, id: nat, seen: seq<Turn>, job: Job) {
    var p := job.phase;
    && (HasSource(p) ==> job.op.source == Some(p.source) && SomeSlot(p.source))
    && (p.Polling? && p.saw ==> PolledBefore(mine, id, seen, |seen|, Other(p.source), Yes))
    && (p.Judging? ==>
          && seen != [] && WorkerAfter(mine, id, seen[..|seen| - 1]).phase.Polling?
          && seen[|seen| - 1].event == Answer(p.remote)
          && (p.saw ==> PolledBefore(mine, id, seen, |seen| - 1, Other(p.source), Yes)))
    && (job.op.state.Succeeded? ==>
          job.op.source.Some? && PolledBefore(mine, id, seen, |seen|, Other(job.op.source.value), No))
    && (job.op.state.RolledBack? ==> job.op.source.Some? && RolledBackIn(mine, id, seen, job.op.source.value))
  }

  lemma MoreTurnsKeep(mine: Node, id: nat, seen: seq<Turn>, turn: Turn)
    ensures forall i, p, q :: PolledAt(mine, id, seen, i, p, q) ==> PolledAt(mine, id, seen + [turn], i, p, q)
    ensures forall n, p, q :: PolledBefore(mine, id, seen, n, p, q) ==> PolledBefore(mine, id, seen + [turn], n, p, q)
    ensures forall s :: RolledBackIn(mine, id, seen, s) ==> RolledBackIn(mine, id, seen + [turn], s)
    ensures forall n, p, q :: PolledBefore(mine, id, seen, n, p, q) ==>
              PolledBefore(mine, id, seen + [turn], |seen| + 1, p, q)
  {
    hide WorkerAfter, Confirms;
    forall i: nat | i < |seen| ensures (seen + [turn])[..i] == seen[..i] {}
  }

  lemma ActKeepsFounded(mine: Node, id: nat, seen: seq<Turn>, turn: Turn)
    requires Founded(mine, id, seen, WorkerAfter(mine, id, seen))
    ensures Founded(mine, id, seen + [turn], WorkerAfter(mine, id, seen + [turn]))
  {
    hide PolledAt, PolledBefore, RolledBackIn, Fold;
    FoldLast(mine, Job(Begin, Fresh(id)), seen, turn);
    MoreTurnsKeep(mine, id, seen, turn);
    var more := seen + [turn];
    assert more[..|seen|] == seen;
    if WorkerAfter(mine, id, seen).phase.Judging? {
      JudgedAt(mine, id, seen, turn, |seen| - 1);
    }
    hide WorkerAfter, SomeSlot, Other;
    ActIsFounded(mine, id, seen, turn, WorkerAfter(mine, id, seen));
  }

  ghost predicate Carried(mine: Node, id: nat, seen: seq<Turn>, more: seq<Turn>, n: nat, m: nat) {
    forall p, q :: PolledBefore(mine, id, seen, n, p, q) ==> PolledBefore(mine, id, more, m, p, q)
  }

  /** One turn, from the facts about the turns before. */
  lemma ActIsFounded(mine: Node, id: nat, seen: seq<Turn>, turn: Turn, job: Job)
    requires Founded(mine, id, seen, job)
    requires WorkerAfter(mine, id, (seen + [turn])[..|seen|]) == job
    requires Carried(mine, id, seen, seen + [turn], |seen|, |seen|)
    requires Carried(mine, id, seen, seen + [turn], |seen|, |seen| + 1)
    requires seen != [] ==> Carried(mine, id, seen, seen + [turn], |seen| - 1, |seen| + 1)
    requires forall s :: RolledBackIn(mine, id, seen, s) ==> RolledBackIn(mine, id, seen + [turn], s)
    requires var p := job.phase;
             p.Judging? ==>
               && (Confirms(p.remote, mine, Other(p.source), Yes) ==>
                     PolledBefore(mine, id, seen + [turn], |seen| + 1, Other(p.source), Yes))
               && (Confirms(p.remote, mine, Other(p.source), No) ==>
                     PolledBefore(mine, id, seen + [turn], |seen| + 1, Other(p.source), No))
               && (Confirms(p.remote, mine, p.source, No) && p.saw ==>
                     RolledBackIn(mine, id, seen + [turn], p.source))
    ensures Founded(mine, id, seen + [turn], Act(mine, job, turn))
  {
    hide PolledBefore, RolledBackIn, WorkerAfter;
  }

  /** The answer that is being judged was polled in the turn before. */
  lemma JudgedAt(mine: Node, id: nat, seen: seq<Turn>, turn: Turn, k: nat)
    requires Founded(mine, id, seen, WorkerAfter(mine, id, seen)) && k + 1 == |seen|
    requires WorkerAfter(mine, id, seen).phase.Judging?
    ensures var p := WorkerAfter(mine, id, seen).phase;
            && (Confirms(p.remote, mine, Other(p.source), Yes) ==>
                  PolledBefore(mine, id, seen + [turn], |seen| + 1, Other(p.source), Yes))
            && (Confirms(p.remote, mine, Other(p.source), No) ==>
                  PolledBefore(mine, id, seen + [turn], |seen| + 1, Other(p.source), No))
            && (Confirms(p.remote, mine, p.source, No) && p.saw ==>
                  RolledBackIn(mine, id, seen + [turn], p.source))
  {
    MoreTurnsKeep(mine, id, seen, turn);
    var p := WorkerAfter(mine, id, seen).phase;
    hide WorkerAfter;
    var more := seen + [turn];
    assert more[..k] == seen[..k] && seen[..|seen| - 1] == seen[..k] && more[k] == seen[k];
    forall part, pend ensures Confirms(p.remote, mine, part, pend) ==> PolledAt(mine, id, more, k, part, pend) {}
  }

  lemma {:induction false} WorkerIsFounded(mine: Node, id: nat, seen: seq<Turn>)
    ensures Founded(mine, id, seen, WorkerAfter(mine, id, seen))
    decreases |seen|
  {
    if seen != [] {
      var before, last := seen[..|seen| - 1], seen[|seen| - 1];
      assert seen == before + [last];
      WorkerIsFounded(mine, id, before);
      ActKeepsFounded(mine, id, before, last);
    }
  }

  /** Whatever file writes fail: succeeded stands in the table only after a poll got the
      target slot confirmed by this node, rolled_back only after a poll got the target slot
      pending and a later poll the source slot confirmed. */
  lemma ReportsRestOnAnswers(mine: Node, id: nat, seen: seq<Turn>)
    ensures var end := WorkerAfter(mine, id, seen).op;
            && (end.state.Succeeded? ==>
                  end.source.Some? &&
                  exists j: nat :: PolledAt(mine, id, seen, j, Other(end.source.value), No))
            && (end.state.RolledBack? ==>
                  end.source.Some? &&
                  exists i: nat, j: nat :: i < j && PolledAt(mine, id, seen, i, Other(end.source.value), Yes) &&
                                           PolledAt(mine, id, seen, j, end.source.value, No))
  {
    WorkerIsFounded(mine, id, seen);
    hide PolledAt, WorkerAfter;
  }

  // ----- all workers together

  /** A thread of _run_install: for which node, where it is, and its turns so far. */
  datatype Worker = Worker(node: Node, phase: Phase, seen: seq<Turn>)

  /** The shared table, and the threads by the id of their operation. */
  datatype Coordinator = Coordinator(nextId: nat, operations: map<Node, Operation>, workers: map<nat, Worker>)

  datatype Step =
    | Start(node: Node, disk: bool)
    | Work(id: nat, turn: Turn)

  predicate AnyActive(c: Coordinator) {
    exists n :: n in c.operations && !Terminal(c.operations[n].state)
  }

  /** start_install; its own write fails after the operation was entered and before the
      thread starts. */
  function Started(c: Coordinator, node: Node, disk: bool): Coordinator {
    if AnyActive(c) then c
    else
      c.(nextId := c.nextId + 1,
         operations := c.operations[node := Fresh(c.nextId)],
         workers := if disk then c.workers[c.nextId := Worker(node, Begin, [])] else c.workers)
  }

  /** The write goes to whatever operation the table has for the node; progress alone
      checks that it is its own. */
  function Worked(c: Coordinator, id: nat, turn: Turn): Coordinator {
    if id !in c.workers || c.workers[id].node !in c.operations then c
    else
      var w := c.workers[id];
      var op := c.operations[w.node];
      if w.phase.Installing? && turn.event.Progress? && op.id != id then c
      else
        var job := Act(w.node, Job(w.phase, op), turn);
        c.(operations := c.operations[w.node := job.op],
           workers := c.workers[id := Worker(w.node, job.phase, w.seen + [turn])])
  }

  function Next(c: Coordinator, step: Step): Coordinator {
    match step
    case Start(node, disk) => Started(c, node, disk)
    case Work(id, turn) => Worked(c, id, turn)
  }

  function Run(c: Coordinator, steps: seq<Step>): Coordinator
    decreases steps
  {
    if steps == [] then c else Run(Next(c, steps[0]), steps[1..])
  }

  const EMPTY := Coordinator(0, map[], map[])

  ghost predicate Active(c: Coordinator, node: Node) {
    node in c.operations && !Terminal(c.operations[node].state)
  }

  ghost predicate OneActive(c: Coordinator) {
    forall m, n :: Active(c, m) && Active(c, n) ==> m == n
  }

  // ----- the one step that breaks mutual exclusion

  /** A worker ends its operation in the try block, and the file write of that fails. */
  predicate Unlucky(c: Coordinator, step: Step) {
    && step.Work? && !step.turn.disk && step.id in c.workers
    && EndsInTry(c.workers[step.id].node, c.workers[step.id].phase, step.turn.event)
  }

  predicate Lucky(c: Coordinator, steps: seq<Step>)
    decreases steps
  {
    steps == [] || (!Unlucky(c, steps[0]) && Lucky(Next(c, steps[0]), steps[1..]))
  }

  /** Worker id owns the operation of its node; the operation is what its turns made of it,
      and the worker is at work exactly while the operation is active. */
  ghost predicate Owns(c: Coordinator, id: nat)
    requires id in c.workers
  {
    var w := c.workers[id];
    && w.node in c.operations && c.operations[w.node].id == id
    && Job(w.phase, c.operations[w.node]) == WorkerAfter(w.node, id, w.seen)
    && (w.phase.Done? <==> Terminal(c.operations[w.node].state))
  }

  /** The operation of this node has the worker that made it. */
  ghost predicate HasWorker(c: Coordinator, n: Node)
    requires n in c.operations
  {
    var id := c.operations[n].id;
    id in c.workers && c.workers[id].node == n && Owns(c, id)
  }

  /** An operation that was entered by a start whose own write failed. */
  ghost predicate Orphaned(c: Coordinator, n: Node) {
    n in c.operations && c.operations[n] == Fresh(c.operations[n].id) && c.operations[n].id !in c.workers
  }

  ghost predicate Owned(c: Coordinator) {
    && (forall id :: id in c.workers && !c.workers[id].phase.Done? ==> Owns(c, id))
    && (forall n :: n in c.operations ==> HasWorker(c, n) || Orphaned(c, n))
  }

  ghost predicate Numbered(c: Coordinator) {
    && (forall n :: n in c.operations ==> c.operations[n].id < c.nextId)
    && (forall id :: id in c.workers ==> id < c.nextId)
  }

  /** What every step keeps but the unlucky one. */
  ghost predicate Sound(c: Coordinator) {
    Owned(c) && OneActive(c) && Numbered(c)
  }

  /** When no operation is active, no worker is. */
  lemma AllDone(c: Coordinator)
    requires Owned(c) && !AnyActive(c)
    ensures forall id :: id in c.workers ==> c.workers[id].phase.Done?
  {
    hide WorkerAfter;
  }

  lemma StartKeepsSound(c: Coordinator, node: Node, disk: bool)
    requires Sound(c)
    ensures Sound(Started(c, node, disk))
  {
    if !AnyActive(c) {
      AllDone(c);
      hide WorkerAfter, AnyActive;
      var d := Started(c, node, disk);
      NoTurnsYet(node, c.nextId);
      forall n | n in d.operations ensures HasWorker(d, n) || Orphaned(d, n) {
        if n == node {
          assert disk ==> Owns(d, c.nextId);
        } else {
          assert HasWorker(c, n) || Orphaned(c, n);
        }
      }
    }
  }

  lemma NoTurnsYet(node: Node, id: nat)
    ensures WorkerAfter(node, id, []) == Job(Begin, Fresh(id))
  {
  }

  lemma DoneActsNot(mine: Node, op: Operation, turn: Turn)
    ensures Act(mine, Job(Done, op), turn) == Job(Done, op)
  {
  }

  lemma ActKeepsId(mine: Node, job: Job, turn: Turn)
    ensures Act(mine, job, turn).op.id == job.op.id
  {
  }

  /** A turn keeps "done if and only if terminal", unless a terminal write of the try block
      fails in it. */
  lemma ActSettles(mine: Node, job: Job, turn: Turn)
    requires job.phase.Done? <==> Terminal(job.op.state)
    requires turn.disk || !EndsInTry(mine, job.phase, turn.event)
    ensures Act(mine, job, turn).phase.Done? <==> Terminal(Act(mine, job, turn).op.state)
  {
  }

  /** A worker's step keeps the ids and wakes no operation that is over. */
  lemma WorkActivatesNothing(c: Coordinator, id: nat, turn: Turn)
    requires Owned(c)
    ensures var d := Worked(c, id, turn);
            && d.nextId == c.nextId && d.workers.Keys == c.workers.Keys && d.operations.Keys == c.operations.Keys
            && (forall n :: n in c.operations ==> d.operations[n].id == c.operations[n].id)
            && (forall n :: n in c.operations && Terminal(c.operations[n].state) ==>
                  d.operations[n] == c.operations[n])
  {
    hide Act, WorkerAfter;
    if id in c.workers && c.workers[id].node in c.operations {
      var w := c.workers[id];
      ActKeepsId(w.node, Job(w.phase, c.operations[w.node]), turn);
      DoneActsNot(w.node, c.operations[w.node], turn);
    }
  }

  lemma OwnerKeepsOwning(c: Coordinator, id: nat, turn: Turn)
    requires id in c.workers && Owns(c, id) && !Unlucky(c, Work(id, turn))
    ensures id in Worked(c, id, turn).workers && Owns(Worked(c, id, turn), id)
  {
    hide Act, EndsInTry, Fold;
    var w := c.workers[id];
    var job := Job(w.phase, c.operations[w.node]);
    FoldLast(w.node, Job(Begin, Fresh(id)), w.seen, turn);
    ActKeepsId(w.node, job, turn);
    ActSettles(w.node, job, turn);
  }

  lemma OthersKeepOwning(c: Coordinator, id: nat, turn: Turn, other: nat)
    requires Owned(c) && other in c.workers && other != id && Owns(c, other)
    ensures other in Worked(c, id, turn).workers && Owns(Worked(c, id, turn), other)
  {
    hide Act, WorkerAfter;
    if id in c.workers && c.workers[id].node in c.operations {
      var w := c.workers[id];
      DoneActsNot(w.node, c.operations[w.node], turn);
    }
  }

  lemma OrphansStay(c: Coordinator, id: nat, turn: Turn, n: Node)
    requires Owned(c) && Orphaned(c, n)
    ensures Orphaned(Worked(c, id, turn), n)
  {
    hide Act, WorkerAfter;
    if id in c.workers && c.workers[id].node in c.operations {
      var w := c.workers[id];
      DoneActsNot(w.node, c.operations[w.node], turn);
    }
  }

  lemma WorkKeepsSound(c: Coordinator, id: nat, turn: Turn)
    requires Sound(c) && !Unlucky(c, Work(id, turn))
    ensures Sound(Worked(c, id, turn))
  {
    WorkActivatesNothing(c, id, turn);
    var d := Worked(c, id, turn);
    forall other | other in c.workers && Owns(c, other) ensures other in d.workers && Owns(d, other) {
      if other == id { OwnerKeepsOwning(c, id, turn); } else { OthersKeepOwning(c, id, turn, other); }
    }
    forall n | Orphaned(c, n) ensures Orphaned(d, n) {
      OrphansStay(c, id, turn, n);
    }
    WorkersKeepNodes(c, id, turn);
    hide Worked, Owns, Orphaned;
    WorkKeepsOneActive(c, d);
    WorkKeepsOwned(c, d);
    hide Owned, OneActive;
  }

  lemma WorkKeepsOneActive(c: Coordinator, d: Coordinator)
    requires OneActive(c) && d.operations.Keys == c.operations.Keys
    requires forall n :: n in c.operations && Terminal(c.operations[n].state) ==> d.operations[n] == c.operations[n]
    ensures OneActive(d)
  {
    assert forall m :: Active(d, m) ==> Active(c, m);
  }

  lemma WorkKeepsOwned(c: Coordinator, d: Coordinator)
    requires Owned(c) && d.operations.Keys == c.operations.Keys && d.workers.Keys == c.workers.Keys
    requires forall n :: n in c.operations ==> d.operations[n].id == c.operations[n].id
    requires forall w :: w in c.workers ==> d.workers[w].node == c.workers[w].node
    requires forall w :: w in c.workers && c.workers[w].phase.Done? ==> d.workers[w].phase.Done?
    requires forall w :: w in c.workers && Owns(c, w) ==> w in d.workers && Owns(d, w)
    requires forall n :: Orphaned(c, n) ==> Orphaned(d, n)
    ensures Owned(d)
  {
    hide Owns, Orphaned;
  }

  lemma WorkersKeepNodes(c: Coordinator, id: nat, turn: Turn)
    ensures forall w :: w in c.workers ==>
              w in Worked(c, id, turn).workers && Worked(c, id, turn).workers[w].node == c.workers[w].node
    ensures Owned(c) ==> forall w :: w in c.workers && c.workers[w].phase.Done? ==>
              Worked(c, id, turn).workers[w].phase.Done?
  {
    hide Act;
    if id in c.workers && c.workers[id].node in c.operations {
      DoneActsNot(c.workers[id].node, c.operations[c.workers[id].node], turn);
    }
  }

  lemma NextKeepsSound(c: Coordinator, step: Step)
    requires Sound(c) && !Unlucky(c, step)
    ensures Sound(Next(c, step))
  {
    hide Sound, Started, Worked, Unlucky;
    match step
    case Start(node, disk) => StartKeepsSound(c, node, disk);
    case Work(id, turn) => WorkKeepsSound(c, id, turn);
  }

  lemma {:induction false} RunKeepsSound(c: Coordinator, steps: seq<Step>)
    requires Sound(c) && Lucky(c, steps)
    ensures Sound(Run(c, steps))
    decreases steps
  {
    hide Sound, Unlucky, Next;
    if steps != [] {
      NextKeepsSound(c, steps[0]);
      RunKeepsSound(Next(c, steps[0]), steps[1..]);
    }
  }

  // ----- runs

  lemma {:induction false} RunConcat(c: Coordinator, a: seq<Step>, b: seq<Step>)
    ensures Run(c, a + b) == Run(Run(c, a), b)
    ensures Lucky(c, a + b) <==> Lucky(c, a) && Lucky(Run(c, a), b)
    decreases a
  {
    hide Next, Unlucky;
    if a == [] {
      assert a + b == b;
    } else {
      assert (a + b)[1..] == a[1..] + b;
      RunConcat(Next(c, a[0]), a[1..], b);
    }
  }

  lemma RunOne(c: Coordinator, step: Step, rest: seq<Step>)
    ensures Run(c, [step] + rest) == Run(Next(c, step), rest)
  {
    hide Next;
    assert ([step] + rest)[1..] == rest;
  }

  ghost predicate WritesSucceed(steps: seq<Step>) {
    forall s :: s in steps && s.Work? ==> s.turn.disk
  }

  lemma {:induction false} SuccessIsLucky(c: Coordinator, steps: seq<Step>)
    requires WritesSucceed(steps)
    ensures Lucky(c, steps)
    decreases steps
  {
    hide Next;
    if steps != [] {
      SuccessIsLucky(Next(c, steps[0]), steps[1..]);
    }
  }

  /** Over every interleaving and every pattern of failed file writes without the unlucky
      one: at most one operation is active over all nodes; every operation is the outcome
      of its own worker's turns, and the worker is at work exactly while it is active; the
      only exception is an operation whose start failed to write. */
  lemma AtMostOneActive(steps: seq<Step>)
    requires Lucky(EMPTY, steps)
    ensures var c := Run(EMPTY, steps);
            && (forall m, n :: Active(c, m) && Active(c, n) ==> m == n)
            && (forall n :: n in c.operations && !Orphaned(c, n) ==>
                  var op := c.operations[n];
                  && op.id in c.workers && c.workers[op.id].node == n
                  && op == WorkerAfter(n, op.id, c.workers[op.id].seen).op
                  && (Active(c, n) <==> !c.workers[op.id].phase.Done?))
  {
    RunKeepsSound(EMPTY, steps);
    hide WorkerAfter, Run, Lucky;
    var c := Run(EMPTY, steps);
    forall n | n in c.operations && !Orphaned(c, n) ensures HasWorker(c, n) {}
  }

  // ----- after the unlucky step

  /** A worker in its except clause, with no operation active: its late write and the next
      operation of its node make two operations active. */
  lemma LateWriteAllowsTwo(c: Coordinator, id: nat, other: Node)
    requires Numbered(c) && !AnyActive(c)
    requires id in c.workers && c.workers[id].phase.Handling? && c.workers[id].node in c.operations
    requires other != c.workers[id].node
    ensures var node := c.workers[id].node;
            var more := [Start(node, true), Work(id, Turn(Go, true)),
                         Start(other, true), Work(c.nextId, Turn(Go, true))];
            Active(Run(c, more), node) && Active(Run(c, more), other)
  {
    var node := c.workers[id].node;
    var go := Turn(Go, true);
    var c1 := Started(c, node, true);
    var c2 := Worked(c1, id, go);
    LateWriteFailsNext(c, id);
    var c3 := Started(c2, other, true);
    var c4 := Worked(c3, c.nextId, go);
    FirstWriteRevives(c3, c.nextId, node, other);
    hide Started, Worked;
    RunOne(c, Start(node, true), [Work(id, go), Start(other, true), Work(c.nextId, go)]);
    RunOne(c1, Work(id, go), [Start(other, true), Work(c.nextId, go)]);
    RunOne(c2, Start(other, true), [Work(c.nextId, go)]);
    RunOne(c3, Work(c.nextId, go), []);
    var more := [Start(node, true), Work(id, go), Start(other, true), Work(c.nextId, go)];
    assert more == [Start(node, true)] + [Work(id, go), Start(other, true), Work(c.nextId, go)];
    assert [Work(id, go), Start(other, true), Work(c.nextId, go)] ==
           [Work(id, go)] + [Start(other, true), Work(c.nextId, go)];
    assert [Start(other, true), Work(c.nextId, go)] == [Start(other, true)] + [Work(c.nextId, go)];
    assert [Work(c.nextId, go)] == [Work(c.nextId, go)] + [];
  }

  /** The late write fails the next operation of the node while its own worker has not
      even begun. */
  lemma LateWriteFailsNext(c: Coordinator, id: nat)
    requires Numbered(c) && !AnyActive(c)
    requires id in c.workers && c.workers[id].phase.Handling? && c.workers[id].node in c.operations
    ensures var node := c.workers[id].node;
            var after := Worked(Started(c, node, true), id, Turn(Go, true));
            && after.operations == c.operations[node := Fresh(c.nextId).(state := Failed)]
            && c.nextId in after.workers && after.workers[c.nextId] == Worker(node, Begin, [])
            && !AnyActive(after)
  {
    var node := c.workers[id].node;
    var mid := Started(c, node, true);
    assert mid.workers[id] == c.workers[id] && mid.operations[node] == Fresh(c.nextId);
    assert Act(node, Job(Handling, Fresh(c.nextId)), Turn(Go, true)) == Job(Done, Fresh(c.nextId).(state := Failed));
    assert c.operations[node := Fresh(c.nextId)][node := Fresh(c.nextId).(state := Failed)] ==
           c.operations[node := Fresh(c.nextId).(state := Failed)];
  }

  lemma FirstWriteRevives(c: Coordinator, id: nat, node: Node, other: Node)
    requires id in c.workers && c.workers[id] == Worker(node, Begin, []) && node in c.operations
    requires Active(c, other) && other != node
    ensures Active(Worked(c, id, Turn(Go, true)), node) && Active(Worked(c, id, Turn(Go, true)), other)
  {
  }

  /** After an unlucky step, in any state without one before, two operations can become
      active although every further file write succeeds. */
  lemma UnluckyAllowsTwo(c: Coordinator, step: Step, other: Node)
    requires Sound(c) && Unlucky(c, step) && other != c.workers[step.id].node
    ensures var node := c.workers[step.id].node;
            var more := [Start(node, true), Work(step.id, Turn(Go, true)), Start(other, true),
                         Work(c.nextId, Turn(Go, true))];
            Active(Run(Next(c, step), more), node) && Active(Run(Next(c, step), more), other)
  {
    UnluckyStepOutcome(c, step);
    hide Run, Worked;
    LateWriteAllowsTwo(Next(c, step), step.id, other);
  }

  lemma UnluckyStepOutcome(c: Coordinator, step: Step)
    requires Sound(c) && Unlucky(c, step)
    ensures var d := Next(c, step);
            && Numbered(d) && !AnyActive(d) && d.nextId == c.nextId
            && step.id in d.workers && d.workers[step.id].phase.Handling?
            && d.workers[step.id].node == c.workers[step.id].node && d.workers[step.id].node in d.operations
  {
    hide WorkerAfter;
    var w := c.workers[step.id];
    assert Owns(c, step.id);
    var op := c.operations[w.node];
    EndingFails(w.node, Job(w.phase, op), step.turn);
    hide Act, EndsInTry;
    assert Active(c, w.node);
    var d := Next(c, step);
    forall n | n in d.operations ensures Terminal(d.operations[n].state) {
      if n != w.node { assert !Active(c, n); }
    }
  }

  lemma EndingFails(mine: Node, job: Job, turn: Turn)
    requires EndsInTry(mine, job.phase, turn.event) && !turn.disk
    ensures var next := Act(mine, job, turn);
            next.phase == Handling && Terminal(next.op.state) && next.op.id == job.op.id
  {
  }

  lemma {:induction false} FirstUnlucky(c: Coordinator, steps: seq<Step>) returns (k: nat)
    requires !Lucky(c, steps)
    ensures k < |steps| && Lucky(c, steps[..k]) && Unlucky(Run(c, steps[..k]), steps[k])
    decreases steps
  {
    hide Next, Unlucky;
    if Unlucky(c, steps[0]) {
      k := 0;
      assert steps[..0] == [];
    } else {
      var j := FirstUnlucky(Next(c, steps[0]), steps[1..]);
      k := j + 1;
      assert steps[..k] == [steps[0]] + steps[1..][..j];
      assert steps[..k][1..] == steps[1..][..j];
    }
  }

  /** However a run goes on from any of its points, as long as no worker's write fails any
      more, at most one operation is active. */
  ghost predicate StaysExclusive(steps: seq<Step>) {
    forall n: nat, more: seq<Step> ::
      n <= |steps| && WritesSucceed(more) ==> OneActive(Run(EMPTY, steps[..n] + more))
  }

  /** Mutual exclusion holds exactly for the runs without an unlucky step. */
  lemma ExclusiveExactlyWhenLucky(steps: seq<Step>)
    ensures Lucky(EMPTY, steps) <==> StaysExclusive(steps)
  {
    if Lucky(EMPTY, steps) {
      forall n: nat, more: seq<Step> | n <= |steps| && WritesSucceed(more)
        ensures OneActive(Run(EMPTY, steps[..n] + more))
      {
        assert steps == steps[..n] + steps[n..];
        RunConcat(EMPTY, steps[..n], steps[n..]);
        RunConcat(EMPTY, steps[..n], more);
        SuccessIsLucky(Run(EMPTY, steps[..n]), more);
        RunKeepsSound(EMPTY, steps[..n] + more);
      }
    } else {
      UnluckyIsNotExclusive(steps);
    }
  }

  lemma UnluckyIsNotExclusive(steps: seq<Step>)
    requires !Lucky(EMPTY, steps)
    ensures !StaysExclusive(steps)
  {
    var k := FirstUnlucky(EMPTY, steps);
    var c := Run(EMPTY, steps[..k]);
    RunKeepsSound(EMPTY, steps[..k]);
    hide Next, Unlucky, Sound, OneActive, WritesSucceed, Lucky;
    var more := UnluckyContinuation(c, steps[k]);
    assert steps[..k + 1] == steps[..k] + [steps[k]];
    RunConcat(EMPTY, steps[..k], [steps[k]]);
    RunOne(c, steps[k], []);
    assert [steps[k]] + [] == [steps[k]];
    RunConcat(EMPTY, steps[..k + 1], more);
    assert !OneActive(Run(EMPTY, steps[..k + 1] + more));
  }

  lemma UnluckyContinuation(c: Coordinator, step: Step) returns (more: seq<Step>)
    requires Sound(c) && Unlucky(c, step)
    ensures WritesSucceed(more) && !OneActive(Run(Next(c, step), more))
  {
    var node := c.workers[step.id].node;
    var other := node + 1;
    UnluckyAllowsTwo(c, step, other);
    hide Run, Next, Sound;
    more := [Start(node, true), Work(step.id, Turn(Go, true)), Start(other, true), Work(c.nextId, Turn(Go, true))];
  }

  // ----- terminal operations

  /** In every state that lucky steps can reach, whatever the next step is and whether its
      file write fails: a terminal operation does not change; only a new one can take its
      place. */
  lemma TerminalIsFinal(c: Coordinator, step: Step, node: Node)
    requires Sound(c) && node in c.operations && Terminal(c.operations[node].state)
    ensures var after := Next(c, step).operations;
            && node in after
            && (after[node] == c.operations[node] ||
                (step.Start? && step.node == node && !AnyActive(c) && after[node] == Fresh(c.nextId)))
  {
    match step
    case Start(_, _) =>
    case Work(id, turn) => WorkActivatesNothing(c, id, turn);
  }

  // ----- operations without a worker

  /** The operation is active, and nobody works on it. */
  ghost predicate Workerless(c: Coordinator, n: Node) {
    Active(c, n) && forall id :: id in c.workers && c.workers[id].node == n ==> c.workers[id].phase.Done?
  }

  /** A start whose file write fails raises, but has entered the operation already and
      starts no worker: from then on every install on every node is refused, whatever
      writes succeed or fail. */
  lemma FailedStartBlocksForever(c: Coordinator, node: Node, steps: seq<Step>)
    requires Sound(c) && !AnyActive(c)
    ensures var blocked := Started(c, node, false);
            var end := Run(blocked, steps);
            && Workerless(blocked, node)
            && end.nextId == blocked.nextId
            && node in end.operations && end.operations[node] == Fresh(c.nextId) && AnyActive(end)
  {
    AllDone(c);
    RunStaysBlocked(Started(c, node, false), node, steps);
  }

  lemma {:induction false} RunStaysBlocked(c: Coordinator, node: Node, steps: seq<Step>)
    requires Active(c, node) && forall id :: id in c.workers ==> c.workers[id].phase.Done?
    ensures var end := Run(c, steps);
            && end.nextId == c.nextId && node in end.operations && end.operations[node] == c.operations[node]
            && AnyActive(end)
    decreases steps
  {
    if steps != [] {
      assert AnyActive(c);
      BlockedStep(c, node, steps[0]);
      hide Next;
      RunStaysBlocked(Next(c, steps[0]), node, steps[1..]);
    }
  }

  lemma BlockedStep(c: Coordinator, node: Node, step: Step)
    requires AnyActive(c) && node in c.operations && forall id :: id in c.workers ==> c.workers[id].phase.Done?
    ensures var d := Next(c, step);
            && d.nextId == c.nextId && node in d.operations && d.operations[node] == c.operations[node]
            && forall id :: id in d.workers ==> d.workers[id].phase.Done?
  {
    hide Act;
    if step.Work? && step.id in c.workers && c.workers[step.id].node in c.operations {
      DoneActsNot(c.workers[step.id].node, c.operations[c.workers[step.id].node], step.turn);
    }
  }

  /** The start was accepted, and its own file write failed. */
  predicate FailedStart(c: Coordinator, step: Step, n: Node) {
    step == Start(n, false) && !AnyActive(c)
  }

  /** A worker leaves for good only with a write that ends the operation. */
  lemma LastWriteEnds(mine: Node, job: Job, turn: Turn)
    ensures var next := Act(mine, job, turn);
            next.phase.Done? ==> if job.phase.Done? then next == job else Terminal(next.op.state)
  {
  }

  lemma NextKeepsNumbered(c: Coordinator, step: Step)
    requires Numbered(c)
    ensures Numbered(Next(c, step))
  {
    hide Act;
    if step.Work? && step.id in c.workers && c.workers[step.id].node in c.operations {
      var w := c.workers[step.id];
      ActKeepsId(w.node, Job(w.phase, c.operations[w.node]), step.turn);
    }
  }

  lemma {:induction false} RunKeepsNumbered(c: Coordinator, steps: seq<Step>)
    requires Numbered(c)
    ensures Numbered(Run(c, steps))
    decreases steps
  {
    hide Numbered, Next;
    if steps != [] {
      NextKeepsNumbered(c, steps[0]);
      RunKeepsNumbered(Next(c, steps[0]), steps[1..]);
    }
  }

  lemma WorkerlessComesFromFailedStart(c: Coordinator, step: Step, n: Node)
    requires Numbered(c) && Workerless(Next(c, step), n)
    ensures Workerless(c, n) || FailedStart(c, step, n)
  {
    hide Act;
    match step
    case Start(node, disk) =>
      var d := Started(c, node, disk);
      if d != c {
        assert c.nextId in d.workers <==> disk;
        assert forall id :: id in c.workers ==> id in d.workers && d.workers[id] == c.workers[id];
      }
    case Work(id, turn) =>
      var d := Worked(c, id, turn);
      assert forall other :: other in c.workers && other != id ==>
               other in d.workers && d.workers[other] == c.workers[other];
      if id in c.workers && c.workers[id].node in c.operations {
        var w := c.workers[id];
        LastWriteEnds(w.node, Job(w.phase, c.operations[w.node]), turn);
        forall other | other in c.workers && c.workers[other].node == n ensures c.workers[other].phase.Done? {
          assert other in d.workers && d.workers[other].node == n;
        }
        assert n in d.operations && !Terminal(d.operations[n].state);
        assert id in d.workers && (w.node == n ==> d.workers[id].phase.Done?);
        assert d.operations[n] == c.operations[n];
      }
  }

  /** That is the only way to it, in every run and whatever writes fail: an active operation
      that nobody works on was entered by a start whose own write failed. */
  lemma {:induction false} WorkerlessOnlyByFailedStart(steps: seq<Step>, n: Node)
    requires Workerless(Run(EMPTY, steps), n)
    ensures exists k: nat :: k < |steps| && FailedStart(Run(EMPTY, steps[..k]), steps[k], n)
    decreases |steps|
  {
    if steps != [] {
      hide Next, Workerless, FailedStart, Numbered;
      var front, last := steps[..|steps| - 1], steps[|steps| - 1];
      assert steps == front + [last];
      RunConcat(EMPTY, front, [last]);
      RunOne(Run(EMPTY, front), last, []);
      assert [last] + [] == [last];
      EmptyIsNumbered();
      RunKeepsNumbered(EMPTY, front);
      WorkerlessComesFromFailedStart(Run(EMPTY, front), last, n);
      if !FailedStart(Run(EMPTY, front), last, n) {
        WorkerlessOnlyByFailedStart(front, n);
        var k: nat :| k < |front| && FailedStart(Run(EMPTY, front[..k]), front[k], n);
        assert steps[..k] == front[..k] && steps[k] == front[k];
      }
    }
  }

  lemma EmptyIsNumbered()
    ensures Numbered(EMPTY)
  {
  }
}
