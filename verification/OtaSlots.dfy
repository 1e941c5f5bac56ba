/** The two firmware slots by name: what a reported outcome says about the slot that the
    node runs, and when an update ends well. */
module OtaSlots {
  import opened Common
  import opened Ota
  import opened OtaRuns

  // ----- the workers

  /** In turn i the poll loop got an answer of this node that names this slot. */
  ghost predicate PollNamed(mine: Node, id: nat, seen: seq<Turn>, i: nat, slot: Partition, pending: Pending) {
    && i < |seen| && WorkerAfter(mine, id, seen[..i]).phase.Polling? && seen[i].event.Answer?
    && seen[i].event.remote.node == mine && seen[i].event.remote.partition == slot
    && seen[i].event.remote.pending == pending
  }

  ghost predicate ConfirmedOn(mine: Node, id: nat, seen: seq<Turn>, slot: Partition) {
    exists j: nat :: PollNamed(mine, id, seen, j, slot, No)
  }

  ghost predicate PendingThenBack(mine: Node, id: nat, seen: seq<Turn>, target: Partition, source: Partition) {
    exists i: nat, j: nat ::
      i < j && PollNamed(mine, id, seen, i, target, Yes) && PollNamed(mine, id, seen, j, source, No)
  }

  /** The preflight answer of this node named this slot. */
  ghost predicate ProbeNamed(mine: Node, id: nat, seen: seq<Turn>, slot: Partition) {
    exists i: nat :: i < |seen| && WorkerAfter(mine, id, seen[..i]).phase == Probing &&
                     seen[i].event.Answer? && seen[i].event.remote.node == mine &&
                     seen[i].event.remote.partition == slot
  }

  /** Whatever file writes fail: succeeded is reported only when the preflight answer
      named Ota0 and the node was then polled to run Ota1 for good, or the reverse;
      rolled_back only when it was first polled to run the other slot on trial and then its
      old slot for good. */
  lemma ReportsNameSlots(mine: Node, id: nat, seen: seq<Turn>)
    ensures var end := WorkerAfter(mine, id, seen).op;
            && (end.source.Some? ==> ProbeNamed(mine, id, seen, end.source.value))
            && (end.state.Succeeded? ==>
                  || (end.source == Some(Ota0) && ConfirmedOn(mine, id, seen, Ota1))
                  || (end.source == Some(Ota1) && ConfirmedOn(mine, id, seen, Ota0)))
            && (end.state.RolledBack? ==>
                  || (end.source == Some(Ota0) && PendingThenBack(mine, id, seen, Ota1, Ota0))
                  || (end.source == Some(Ota1) && PendingThenBack(mine, id, seen, Ota0, Ota1)))
  {
    ReportsRestOnAnswers(mine, id, seen);
    ReportsHaveSource(mine, id, seen);
    forall i, slot, pending ensures PolledAt(mine, id, seen, i, slot, pending) <==>
                                    PollNamed(mine, id, seen, i, slot, pending) {}
    hide PolledAt, PollNamed, WorkerAfter;
  }

  /** A source is one of the two slots, and the one that the preflight answer named. */
  ghost predicate SourceIsProbed(mine: Node, id: nat, seen: seq<Turn>, job: Job) {
    && (job.op.source.Some? ==> job.op.source.value in {Ota0, Ota1} && ProbeNamed(mine, id, seen, job.op.source.value))
    && (HasSource(job.phase) ==> job.op.source == Some(job.phase.source))
    && (job.op.source.None? ==> job.op.state !in {Succeeded, RolledBack})
  }

  lemma {:induction false} SourceComesFromProbe(mine: Node, id: nat, seen: seq<Turn>)
    ensures SourceIsProbed(mine, id, seen, WorkerAfter(mine, id, seen))
    decreases |seen|
  {
    if seen != [] {
      var before, last := seen[..|seen| - 1], seen[|seen| - 1];
      assert seen == before + [last];
      SourceComesFromProbe(mine, id, before);
      FoldLast(mine, Job(Begin, Fresh(id)), before, last);
      forall slot ensures ProbeNamed(mine, id, before, slot) ==> ProbeNamed(mine, id, seen, slot) {
        if ProbeNamed(mine, id, before, slot) { ProbeStays(mine, id, before, last, slot); }
      }
      var job := WorkerAfter(mine, id, before);
      if job.phase == Probing && last.event.Answer? && last.event.remote.node == mine {
        assert seen[..|seen| - 1] == before;
        assert ProbeNamed(mine, id, seen, last.event.remote.partition);
      }
      hide WorkerAfter, ProbeNamed, Fold;
      ProbeActs(mine, job, last);
    }
  }

  lemma ProbeStays(mine: Node, id: nat, seen: seq<Turn>, turn: Turn, slot: Partition)
    requires ProbeNamed(mine, id, seen, slot)
    ensures ProbeNamed(mine, id, seen + [turn], slot)
  {
    hide WorkerAfter;
    var i: nat :| i < |seen| && WorkerAfter(mine, id, seen[..i]).phase == Probing &&
                  seen[i].event.Answer? && seen[i].event.remote.node == mine &&
                  seen[i].event.remote.partition == slot;
    assert (seen + [turn])[..i] == seen[..i] && (seen + [turn])[i] == seen[i];
  }

  lemma ProbeActs(mine: Node, job: Job, turn: Turn)
    requires HasSource(job.phase) ==> job.op.source == Some(job.phase.source)
    requires job.op.source.None? ==> job.op.state !in {Succeeded, RolledBack}
    ensures var next := Act(mine, job, turn);
            && (HasSource(next.phase) ==> next.op.source == Some(next.phase.source))
            && (next.op.source.None? ==> next.op.state !in {Succeeded, RolledBack})
            && (next.op.source == job.op.source ||
                (job.phase == Probing && turn.event.Answer? && turn.event.remote.node == mine &&
                 next.op.source == Some(turn.event.remote.partition) &&
                 turn.event.remote.partition in {Ota0, Ota1}))
  {
  }

  lemma ReportsHaveSource(mine: Node, id: nat, seen: seq<Turn>)
    ensures var end := WorkerAfter(mine, id, seen).op;
            && (end.state in {Succeeded, RolledBack} ==> end.source == Some(Ota0) || end.source == Some(Ota1))
            && (end.source.Some? ==> ProbeNamed(mine, id, seen, end.source.value))
  {
    SourceComesFromProbe(mine, id, seen);
    hide WorkerAfter, ProbeNamed;
  }

  // ----- the rest of the entry

  /** The preflight answer of this node, and every answer to a poll, goes into the entry. */
  predicate ShowsStatus(mine: Node, phase: Phase, event: Event) {
    event.Answer? &&
    (phase.Polling? || (phase.Probing? && event.remote.node == mine && event.remote.partition in {Ota0, Ota1}))
  }

  function LastStatus(mine: Node, id: nat, seen: seq<Turn>): Option<Remote>
    decreases |seen|
  {
    if seen == [] then None
    else
      var before, event := seen[..|seen| - 1], seen[|seen| - 1].event;
      if ShowsStatus(mine, WorkerAfter(mine, id, before).phase, event) then Some(event.remote)
      else LastStatus(mine, id, before)
  }

  /** The number of bytes that this turn learns to be sent. */
  function Told(phase: Phase, event: Event): Option<nat> {
    if phase.Aborted? then phase.sent
    else if !phase.Installing? then None
    else
      match event
      case Progress(written, _) => Some(written)
      case Accepted(target, written) => if TwoSlots(phase.source, target) then Some(written) else None
      case Lost(size) => Some(size)
      case _ => None
  }

  function LastTold(mine: Node, id: nat, seen: seq<Turn>): Option<nat>
    decreases |seen|
  {
    if seen == [] then None
    else
      var before := seen[..|seen| - 1];
      var told := Told(WorkerAfter(mine, id, before).phase, seen[|seen| - 1].event);
      if told.Some? then told else LastTold(mine, id, before)
  }

  /** The state in the entry while the worker is at this place of its program. */
  predicate StateFits(phase: Phase, state: OpState, told: Option<nat>) {
    match phase
    case Begin => state == Queued && told.None?
    case Probing => state == Preflight && told.None?
    case Installing(_) => state == if told.Some? then Uploading else Authorizing
    case Aborted(_, _) => state == Uploading
    case Polling(_, lost, saw) =>
      if lost then state == Reconciling else state == Validating || (!saw && state == Rebooting)
    case Judging(_, lost, _, _) => state == if lost then Reconciling else Validating
    case Handling => true
    case Done => Terminal(state)
  }

  /** At every moment of every worker the entry shows the last status that its node gave,
      the last number of bytes, and the place where the worker is. */
  lemma {:induction false} EntryShowsTurns(mine: Node, id: nat, seen: seq<Turn>)
    ensures var job, told := WorkerAfter(mine, id, seen), LastTold(mine, id, seen);
            && job.op.remote == LastStatus(mine, id, seen)
            && job.op.bytes == (if told.Some? then told.value else 0)
            && StateFits(job.phase, job.op.state, told)
            && (HasSource(job.phase) ==> job.phase.source in {Ota0, Ota1})
    decreases |seen|
  {
    if seen != [] {
      var before, last := seen[..|seen| - 1], seen[|seen| - 1];
      EntryShowsTurns(mine, id, before);
      EntryActs(mine, WorkerAfter(mine, id, before), last, LastTold(mine, id, before));
      hide Act, StateFits, ShowsStatus, Told;
    }
  }

  lemma EntryActs(mine: Node, job: Job, turn: Turn, told: Option<nat>)
    requires StateFits(job.phase, job.op.state, told) && job.op.bytes == (if told.Some? then told.value else 0)
    requires HasSource(job.phase) ==> job.phase.source in {Ota0, Ota1}
    ensures var next := Act(mine, job, turn);
            var newest := if Told(job.phase, turn.event).Some? then Told(job.phase, turn.event) else told;
            && next.op.remote == (if ShowsStatus(mine, job.phase, turn.event) then Some(turn.event.remote)
                                  else job.op.remote)
            && next.op.bytes == (if newest.Some? then newest.value else 0)
            && StateFits(next.phase, next.op.state, newest)
            && (HasSource(next.phase) ==> next.phase.source in {Ota0, Ota1})
  {
    TurnShows(mine, job, turn);
    TurnFits(mine, job, turn, told);
    hide Act, StateFits, ShowsStatus, Told;
  }

  lemma TurnShows(mine: Node, job: Job, turn: Turn)
    requires HasSource(job.phase) ==> job.phase.source in {Ota0, Ota1}
    ensures var next := Act(mine, job, turn);
            && next.op.remote == (if ShowsStatus(mine, job.phase, turn.event) then Some(turn.event.remote)
                                  else job.op.remote)
            && next.op.bytes == (if Told(job.phase, turn.event).Some? then Told(job.phase, turn.event).value
                                 else job.op.bytes)
  {
  }

  lemma TurnFits(mine: Node, job: Job, turn: Turn, told: Option<nat>)
    requires StateFits(job.phase, job.op.state, told)
    requires HasSource(job.phase) ==> job.phase.source in {Ota0, Ota1}
    ensures var next := Act(mine, job, turn);
            var newest := if Told(job.phase, turn.event).Some? then Told(job.phase, turn.event) else told;
            && StateFits(next.phase, next.op.state, newest)
            && (HasSource(next.phase) ==> next.phase.source in {Ota0, Ota1})
  {
  }

  /** A progress report that cannot be written ends the upload: as a lost answer, to be
      reconciled, when it was the report of the last byte, and as a failure before that. */
  lemma UnwrittenProgress(mine: Node, job: Job, written: nat, size: nat, next: Turn)
    requires job.phase.Installing? && next.disk
    ensures var ended := Act(mine, Act(mine, job, Turn(Progress(written, size), false)), next);
            if written < size then ended.phase == Done && ended.op.state == Failed && ended.op.bytes == written
            else ended.phase == Polling(job.phase.source, true, false) && ended.op.state == Reconciling &&
                 ended.op.bytes == size
  {
  }

  // ----- one installation

  /** The reply is a status of this node that names this slot. */
  predicate Names(mine: Node, reply: Reply, slot: Partition, pending: Pending) {
    reply.Status? && reply.remote.node == mine && reply.remote.partition == slot && reply.remote.pending == pending
  }

  /** The reply ends the loop with a failure whatever it says of the slots. */
  predicate Foreign(mine: Node, reply: Reply) {
    reply.Broken? || (reply.Status? && reply.remote.node != mine)
  }

  predicate OnTrialBefore(mine: Node, target: Partition, trace: Trace, k: nat)
    requires k <= |trace|
  {
    exists j :: 0 <= j < k && Names(mine, trace[j], target, Yes)
  }

  predicate TwoSlots(source: Partition, target: Partition) {
    (source == Ota0 && target == Ota1) || (source == Ota1 && target == Ota0)
  }

  /** What a poll decides, with both slots named. */
  lemma RulingMeaning(mine: Node, source: Partition, target: Partition, lost: bool, trace: Trace, k: nat)
    requires TwoSlots(source, target) && k < |trace|
    ensures var ruling := Ruling(mine, source, lost, trace, k);
            var back := Names(mine, trace[k], source, No);
            && (ruling == Some(Succeeded) <==> Names(mine, trace[k], target, No))
            && (ruling == Some(RolledBack) <==> back && OnTrialBefore(mine, target, trace, k))
            && (ruling == Some(Failed) <==>
                  Foreign(mine, trace[k]) ||
                  (back && !OnTrialBefore(mine, target, trace, k) && lost && !trace[k].remote.activity.Busy?))
            && (ruling.Some? ==> ruling.value in {Succeeded, RolledBack, Failed})
  {
    assert Other(source) == target;
    assert OnTrialBefore(mine, target, trace, k) <==> WasPending(mine, source, trace, k);
    hide OnTrialBefore, WasPending;
  }

  /** The poll decides nothing. */
  predicate GoesOn(mine: Node, source: Partition, target: Partition, lost: bool, trace: Trace, k: nat)
    requires k < |trace|
  {
    && !Foreign(mine, trace[k]) && !Names(mine, trace[k], target, No)
    && !(Names(mine, trace[k], source, No) &&
         (OnTrialBefore(mine, target, trace, k) || (lost && !trace[k].remote.activity.Busy?)))
  }

  /** Poll k shows the target confirmed, and nothing was decided before. */
  ghost predicate ConfirmedFirst(
    mine: Node, source: Partition, target: Partition, lost: bool, trace: Trace, k: nat)
  {
    && k < |trace| && Names(mine, trace[k], target, No)
    && forall j: nat :: j < k ==> GoesOn(mine, source, target, lost, trace, j)
  }

  /** The upload was accepted for this slot, or its answer was lost. */
  predicate Sent(transfer: Transfer, target: Partition) {
    transfer.Unknown? || (transfer.Taken? && transfer.target == target)
  }

  /** An installation from a slot succeeds if and only if the image was sent for the other
      slot and some poll in time shows it confirmed there, with nothing decided before. */
  lemma SucceedsExactly(mine: Node, script: Script, clock: int, source: Partition, target: Partition, lost: bool)
    requires TwoSlots(source, target) && script.preflight.Status? && lost == script.transfer.Unknown?
    requires script.preflight.remote.node == mine && script.preflight.remote.partition == source
    ensures var trace := InTime(script.polls, clock, clock + VALIDATION_TIME);
            Verdict(mine, script, clock) == Succeeded <==>
              Sent(script.transfer, target) &&
              exists k: nat :: ConfirmedFirst(mine, source, target, lost, trace, k)
  {
    var trace := InTime(script.polls, clock, clock + VALIDATION_TIME);
    VerdictUnfolds(mine, script, clock, source, target);
    hide InTime, Verdict, Sent;
    FirstSuccess(mine, source, target, lost, trace);
  }

  lemma VerdictUnfolds(mine: Node, script: Script, clock: int, source: Partition, target: Partition)
    requires TwoSlots(source, target) && script.preflight.Status?
    requires script.preflight.remote.node == mine && script.preflight.remote.partition == source
    ensures Verdict(mine, script, clock) ==
            if !Sent(script.transfer, target) then Failed
            else VerdictFrom(mine, source, script.transfer.Unknown?,
                             InTime(script.polls, clock, clock + VALIDATION_TIME), 0)
  {
    hide InTime, VerdictFrom;
  }

  /** The first ruling is a success. */
  lemma FirstSuccess(mine: Node, source: Partition, target: Partition, lost: bool, trace: Trace)
    requires TwoSlots(source, target)
    ensures VerdictFrom(mine, source, lost, trace, 0) == Succeeded <==>
            exists k: nat :: ConfirmedFirst(mine, source, target, lost, trace, k)
  {
    forall j: nat | j < |trace|
      ensures Ruling(mine, source, lost, trace, j).None? <==> GoesOn(mine, source, target, lost, trace, j)
      ensures Ruling(mine, source, lost, trace, j) == Some(Succeeded) <==> Names(mine, trace[j], target, No)
    {
      RulingMeaning(mine, source, target, lost, trace, j);
    }
    hide GoesOn, Names, Ruling, VerdictFrom;
    var k := FirstRuling(mine, source, lost, trace, 0);
    if k < |trace| && Names(mine, trace[k], target, No) {
      assert ConfirmedFirst(mine, source, target, lost, trace, k);
    }
    if m: nat :| ConfirmedFirst(mine, source, target, lost, trace, m) {
      assert k >= m;
      assert k <= m;
    }
  }

  // ----- the polls in time

  /** When poll k of the loop begins, in milliseconds: each takes its pause of two seconds
      and the time of its request. */
  function PollStart(polls: seq<Poll>, clock: int, k: nat): int {
    if k == 0 then clock
    else PollStart(polls, clock, k - 1) + 2000 + (if k - 1 < |polls| then polls[k - 1].wait else 0)
  }

  function AnswerOf(polls: seq<Poll>, k: nat): Reply {
    if k < |polls| then polls[k].answer else Unreachable
  }

  lemma {:induction false} StartLater(polls: seq<Poll>, clock: int, k: nat)
    ensures var rest := if polls == [] then [] else polls[1..];
            PollStart(polls, clock, k + 1) ==
            PollStart(rest, clock + 2000 + (if polls == [] then 0 else polls[0].wait), k)
  {
    if k > 0 {
      StartLater(polls, clock, k - 1);
    }
  }

  lemma {:induction false} StartsAscend(polls: seq<Poll>, clock: int, j: nat, k: nat)
    requires j <= k
    ensures PollStart(polls, clock, j) <= PollStart(polls, clock, k)
  {
    if j < k {
      StartsAscend(polls, clock, j, k - 1);
    }
  }

  /** Exactly the polls that begin before the deadline are made. */
  lemma {:induction false} InTimeMeaning(polls: seq<Poll>, clock: int, deadline: int, k: nat)
    ensures var trace := InTime(polls, clock, deadline);
            && (k < |trace| <==> PollStart(polls, clock, k) < deadline)
            && (k < |trace| ==> trace[k] == AnswerOf(polls, k))
    decreases k
  {
    StartsAscend(polls, clock, 0, k);
    if clock < deadline && k > 0 {
      var rest := if polls == [] then [] else polls[1..];
      var later := clock + 2000 + (if polls == [] then 0 else polls[0].wait);
      InTimeMeaning(rest, later, deadline, k - 1);
      StartLater(polls, clock, k - 1);
      hide PollStart;
      assert InTime(polls, clock, deadline)[1..] == InTime(rest, later, deadline);
    }
  }

  /** Silence, or a status of this node that names no slot for good. */
  predicate Undecided(mine: Node, reply: Reply) {
    reply.Unreachable? || (reply.Status? && reply.remote.node == mine && !reply.remote.pending.No?)
  }

  /** An honest update ends as succeeded: the image is accepted for the slot that the node
      does not run, the node shows it confirmed there in a poll that begins within 180
      seconds, and every earlier poll is silent or shows a slot on trial. */
  lemma HonestUpdateSucceeds(
    mine: Node, id: nat, script: Script, clock: int, disk: seq<bool>, source: Partition, target: Partition, k: nat)
    requires TwoSlots(source, target) && AllWritten(disk) && script.preflight.Status?
    requires script.preflight.remote.node == mine && script.preflight.remote.partition == source
    requires script.transfer.Taken? && script.transfer.target == target
    requires PollStart(script.polls, clock, k) < clock + 180000
    requires Names(mine, AnswerOf(script.polls, k), target, No)
    requires forall j: nat :: j < k ==> Undecided(mine, AnswerOf(script.polls, j))
    ensures Follow(mine, Job(Begin, Fresh(id)), AllEvents(script, clock), disk).0.op.state == Succeeded
  {
    var trace := InTime(script.polls, clock, clock + VALIDATION_TIME);
    forall j: nat | j <= k
      ensures j < |trace| && trace[j] == AnswerOf(script.polls, j)
    {
      StartsAscend(script.polls, clock, j, k);
      InTimeMeaning(script.polls, clock, clock + VALIDATION_TIME, j);
    }
    assert forall j: nat :: j < k ==> GoesOn(mine, source, target, false, trace, j);
    assert ConfirmedFirst(mine, source, target, false, trace, k);
    ConfirmedInTime(mine, script, clock, source, target, trace, k);
    InstallEndsInVerdict(mine, id, script, clock, disk);
  }

  lemma ConfirmedInTime(
    mine: Node, script: Script, clock: int, source: Partition, target: Partition, trace: Trace, k: nat)
    requires TwoSlots(source, target) && script.preflight.Status?
    requires script.preflight.remote.node == mine && script.preflight.remote.partition == source
    requires script.transfer.Taken? && script.transfer.target == target
    requires trace == InTime(script.polls, clock, clock + VALIDATION_TIME)
    requires ConfirmedFirst(mine, source, target, false, trace, k)
    ensures Verdict(mine, script, clock) == Succeeded
  {
    SucceedsExactly(mine, script, clock, source, target, false);
    hide ConfirmedFirst, Verdict;
  }
}
