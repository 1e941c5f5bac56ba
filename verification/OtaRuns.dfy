/** One installation from its start to its end: the answers of the node and the outcomes
    of the file writes decide how _run_install of src/ventilation_core/service_ota.py
    ends. */
module OtaRuns {
  import opened Common
  import opened Ota

  const VALIDATION_TIME := 180000
  const POLL_INTERVAL := 2000

  // ----- a worker with the fates of its file writes

  /** Whether the next file write succeeds; when nothing more is said, it does. */
  function NextWrite(disk: seq<bool>): bool {
    disk == [] || disk[0]
  }

  function LaterWrites(disk: seq<bool>): seq<bool> {
    if disk == [] then [] else disk[1..]
  }

  /** One event; a fate is used up when the worker writes. */
  function Take(mine: Node, job: Job, event: Event, disk: seq<bool>): (Job, seq<bool>) {
    if Writes(mine, job, event) then (Act(mine, job, Turn(event, NextWrite(disk))), LaterWrites(disk))
    else (Act(mine, job, Turn(event, true)), disk)
  }

  function Follow(mine: Node, job: Job, events: seq<Event>, disk: seq<bool>): (Job, seq<bool>)
    decreases events
  {
    if events == [] then (job, disk)
    else
      var (next, later) := Take(mine, job, events[0], disk);
      Follow(mine, next, events[1..], later)
  }

  lemma FollowOne(mine: Node, job: Job, event: Event, rest: seq<Event>, disk: seq<bool>)
    ensures var (next, later) := Take(mine, job, event, disk);
            Follow(mine, job, [event] + rest, disk) == Follow(mine, next, rest, later)
  {
    hide Take;
    assert ([event] + rest)[1..] == rest;
  }

  lemma {:induction false} FollowConcat(mine: Node, job: Job, a: seq<Event>, b: seq<Event>, disk: seq<bool>)
    ensures var (mid, later) := Follow(mine, job, a, disk);
            Follow(mine, job, a + b, disk) == Follow(mine, mid, b, later)
    decreases a
  {
    hide Take;
    if a == [] {
      assert a + b == b;
    } else {
      var (next, later) := Take(mine, job, a[0], disk);
      assert (a + b)[1..] == a[1..] + b;
      FollowConcat(mine, next, a[1..], b, later);
    }
  }

  /** A worker that is done stays done, and changes nothing. */
  lemma {:induction false} FollowDone(mine: Node, job: Job, events: seq<Event>, disk: seq<bool>)
    requires job.phase == Done
    ensures Follow(mine, job, events, disk) == (job, disk)
    decreases events
  {
    if events != [] {
      FollowDone(mine, job, events[1..], disk);
    }
  }

  /** How a try block ends: normally, or with an exception and the write of the except clause. */
  function Ending(raised: bool, op: Operation, disk: seq<bool>): (Job, seq<bool>) {
    if raised then (Job(Done, op.(state := Failed)), LaterWrites(disk)) else (Job(Done, op), disk)
  }

  lemma RaisedEnds(mine: Node, job: Job, event: Event, rest: seq<Event>, disk: seq<bool>)
    requires Raises(mine, job.phase, event)
    ensures Follow(mine, job, [event] + rest, disk) == Ending(true, job.op, disk)
  {
    FollowOne(mine, job, event, rest, disk);
    FollowDone(mine, Take(mine, job, event, disk).0, rest, LaterWrites(disk));
  }

  /** The turns of such a run. */
  function Deal(mine: Node, job: Job, events: seq<Event>, disk: seq<bool>): seq<Turn>
    decreases events
  {
    if events == [] then []
    else
      var (next, later) := Take(mine, job, events[0], disk);
      [Turn(events[0], !Writes(mine, job, events[0]) || NextWrite(disk))] + Deal(mine, next, events[1..], later)
  }

  lemma {:induction false} FoldFirst(mine: Node, job: Job, turn: Turn, rest: seq<Turn>)
    ensures Fold(mine, job, [turn] + rest) == Fold(mine, Act(mine, job, turn), rest)
    decreases |rest|
  {
    hide Act;
    var all := [turn] + rest;
    if rest == [] {
      assert all[..|all| - 1] == [];
    } else {
      assert all[..|all| - 1] == [turn] + rest[..|rest| - 1];
      FoldFirst(mine, job, turn, rest[..|rest| - 1]);
    }
  }

  /** Following events is the worker of Ota on these turns. */
  lemma {:induction false} FollowIsFold(mine: Node, job: Job, events: seq<Event>, disk: seq<bool>)
    ensures Follow(mine, job, events, disk).0 == Fold(mine, job, Deal(mine, job, events, disk))
    decreases events
  {
    if events != [] {
      var (next, later) := Take(mine, job, events[0], disk);
      var turn := Turn(events[0], !Writes(mine, job, events[0]) || NextWrite(disk));
      assert Act(mine, job, turn) == next;
      hide Act, Advance, Writes;
      FollowIsFold(mine, next, events[1..], later);
      FoldFirst(mine, job, turn, Deal(mine, next, events[1..], later));
    }
  }

  // ----- the poll loop as a verdict on the trace of answers

  /** How a status request ends: with an answer, with ServiceOtaError or with any other
      exception. */
  datatype Reply = Status(remote: Remote) | Unreachable | Broken

  function ReplyEvent(reply: Reply): Event {
    match reply
    case Status(remote) => Answer(remote)
    case Unreachable => NoAnswer
    case Broken => Crash
  }

  /** The polls of the loop. */
  type Trace = seq<Reply>

  /** The last event leaves room for the except clause. */
  function PollEvents(trace: Trace): seq<Event>
    decreases trace
  {
    if trace == [] then [Timeout, Go] else [ReplyEvent(trace[0])] + ([Go] + PollEvents(trace[1..]))
  }

  predicate WasPending(mine: Node, source: Partition, trace: Trace, k: nat)
    requires k <= |trace|
  {
    exists j :: 0 <= j < k && trace[j].Status? && Confirms(trace[j].remote, mine, Other(source), Yes)
  }

  /** The answer that ends the loop, and how; None while it goes on. */
  function Ruling(mine: Node, source: Partition, lost: bool, trace: Trace, k: nat): Option<OpState>
    requires k < |trace|
  {
    match trace[k]
    case Unreachable => None
    case Broken => Some(Failed)
    case Status(r) =>
      if r.node != mine then Some(Failed)
      else if Confirms(r, mine, Other(source), No) then Some(Succeeded)
      else if Confirms(r, mine, source, No) && WasPending(mine, source, trace, k) then Some(RolledBack)
      else if Confirms(r, mine, source, No) && lost && !r.activity.Busy? then Some(Failed)
      else None
  }

  /** One poll of the loop, when the writes succeed. */
  lemma OnePoll(mine: Node, job: Job, source: Partition, lost: bool, trace: Trace, k: nat)
    requires k < |trace| && SomeSlot(source)
    requires job.phase == Polling(source, lost, WasPending(mine, source, trace, k))
    ensures var judged := Take(mine, job, ReplyEvent(trace[k]), []);
            var next := Take(mine, judged.0, Go, []).0;
            var ruling := Ruling(mine, source, lost, trace, k);
            && judged.1 == [] && Take(mine, judged.0, Go, []).1 == []
            && (ruling.Some? ==> next.phase == Done && next.op.state == ruling.value)
            && (ruling.None? ==> next.phase == Polling(source, lost, WasPending(mine, source, trace, k + 1)))
  {
    assert WasPending(mine, source, trace, k + 1) <==>
      WasPending(mine, source, trace, k) ||
      (trace[k].Status? && Confirms(trace[k].remote, mine, Other(source), Yes));
  }

  /** The loop is decided by the first answer with a ruling, and is uncertain without one. */
  lemma {:induction false} FirstRulingDecides(
    mine: Node, job: Job, source: Partition, lost: bool, trace: Trace, from: nat, k: nat)
    requires from <= k <= |trace| && SomeSlot(source)
    requires job.phase == Polling(source, lost, WasPending(mine, source, trace, from))
    requires forall j :: from <= j < k ==> Ruling(mine, source, lost, trace, j).None?
    requires k < |trace| ==> Ruling(mine, source, lost, trace, k).Some?
    ensures var end := Follow(mine, job, PollEvents(trace[from..]), []).0;
            && end.phase == Done
            && end.op.state == if k < |trace| then Ruling(mine, source, lost, trace, k).value else Uncertain
    decreases |trace| - from
  {
    if from == |trace| {
      assert trace[from..] == [];
      TimeoutEnds(mine, job, []);
    } else {
      var rest := PollEvents(trace[from + 1..]);
      assert trace[from..][1..] == trace[from + 1..];
      assert PollEvents(trace[from..]) == [ReplyEvent(trace[from])] + ([Go] + rest);
      FollowOne(mine, job, ReplyEvent(trace[from]), [Go] + rest, []);
      var judged := Take(mine, job, ReplyEvent(trace[from]), []).0;
      FollowOne(mine, judged, Go, rest, []);
      OnePoll(mine, job, source, lost, trace, from);
      hide Take, WasPending, Ruling;
      var next := Take(mine, judged, Go, []).0;
      if from == k {
        FollowDone(mine, next, rest, []);
      } else {
        FirstRulingDecides(mine, next, source, lost, trace, from + 1, k);
      }
    }
  }

  lemma TimeoutEnds(mine: Node, job: Job, disk: seq<bool>)
    requires job.phase.Polling?
    ensures Follow(mine, job, PollEvents([]), disk) ==
            Ending(!NextWrite(disk), job.op.(state := Uncertain), LaterWrites(disk))
  {
    assert [Timeout, Go] == [Timeout] + [Go] && [Go] == [Go] + [];
    FollowOne(mine, job, Timeout, [Go], disk);
    var (next, later) := Take(mine, job, Timeout, disk);
    FollowOne(mine, next, Go, [], later);
  }

  // ----- the script of an installation

  datatype Transfer = Taken(target: Partition, written: nat) | Unknown(size: nat) | Rejected

  /** wait: how long the status request takes, in milliseconds. */
  datatype Poll = Poll(wait: nat, answer: Reply)

  /** What the node answers to one installation; after the last poll it is silent. */
  datatype Script = Script(
    preflight: Reply, uploads: seq<nat>, size: nat, transferTime: nat, transfer: Transfer, polls: seq<Poll>)

  function TransferEvent(t: Transfer): Event {
    match t
    case Taken(target, written) => Accepted(target, written)
    case Unknown(size) => Lost(size)
    case Rejected => Refused
  }

  function UploadEvents(uploads: seq<nat>, size: nat): seq<Event> {
    seq(|uploads|, i requires 0 <= i < |uploads| => Progress(uploads[i], size))
  }

  /** The polls that the loop makes before its deadline. */
  function InTime(polls: seq<Poll>, clock: int, deadline: int): Trace
    decreases deadline - clock
  {
    if clock >= deadline then []
    else if polls == [] then [Unreachable] + InTime([], clock + POLL_INTERVAL, deadline)
    else [polls[0].answer] + InTime(polls[1..], clock + POLL_INTERVAL + polls[0].wait, deadline)
  }

  function PollsOf(script: Script, clock: int): seq<Event> {
    PollEvents(InTime(script.polls, clock, clock + VALIDATION_TIME))
  }

  function TailEvents(script: Script, clock: int): seq<Event> {
    [TransferEvent(script.transfer)] + PollsOf(script, clock)
  }

  function AllEvents(script: Script, clock: int): seq<Event> {
    [Go] + ([ReplyEvent(script.preflight)] +
            (UploadEvents(script.uploads, script.size) + TailEvents(script, clock)))
  }

  // ----- every installation ends

  /** Short of its end: the events of the poll loop still lie ahead. */
  predicate Underway(p: Phase) {
    p.Polling? || p.Handling? || p.Done?
  }

  lemma {:induction false} PollsEnd(mine: Node, job: Job, trace: Trace, disk: seq<bool>)
    requires Underway(job.phase)
    ensures Follow(mine, job, PollEvents(trace), disk).0.phase == Done
    decreases trace
  {
    if trace == [] {
      assert [Timeout, Go] == [Timeout] + [Go] && [Go] == [Go] + [];
      FollowOne(mine, job, Timeout, [Go], disk);
      var (next, later) := Take(mine, job, Timeout, disk);
      FollowOne(mine, next, Go, [], later);
    } else {
      var rest := PollEvents(trace[1..]);
      FollowOne(mine, job, ReplyEvent(trace[0]), [Go] + rest, disk);
      var (judged, later) := Take(mine, job, ReplyEvent(trace[0]), disk);
      FollowOne(mine, judged, Go, rest, later);
      var (next, last) := Take(mine, judged, Go, later);
      PollIsUnderway(mine, job, trace[0], disk);
      hide Take;
      PollsEnd(mine, next, trace[1..], last);
    }
  }

  lemma PollIsUnderway(mine: Node, job: Job, answer: Reply, disk: seq<bool>)
    requires Underway(job.phase)
    ensures var (judged, later) := Take(mine, job, ReplyEvent(answer), disk);
            Underway(Take(mine, judged, Go, later).0.phase)
  {
  }

  lemma {:induction false} UploadsStay(mine: Node, job: Job, uploads: seq<nat>, size: nat, disk: seq<bool>)
    requires job.phase.Installing? || job.phase.Aborted? || Underway(job.phase)
    ensures var p := Follow(mine, job, UploadEvents(uploads, size), disk).0.phase;
            p.Installing? || p.Aborted? || Underway(p)
    decreases uploads
  {
    if uploads != [] {
      assert UploadEvents(uploads, size)[1..] == UploadEvents(uploads[1..], size);
      var (next, later) := Take(mine, job, Progress(uploads[0], size), disk);
      UploadsStay(mine, next, uploads[1..], size, later);
    }
  }

  /** The run of an installation, part by part. */
  lemma InstallUnfolds(mine: Node, job: Job, script: Script, clock: int, disk: seq<bool>)
    ensures var (began, d1) := Take(mine, job, Go, disk);
            var (probed, d2) := Take(mine, began, ReplyEvent(script.preflight), d1);
            var (loaded, d3) := Follow(mine, probed, UploadEvents(script.uploads, script.size), d2);
            var (moved, d4) := Take(mine, loaded, TransferEvent(script.transfer), d3);
            Follow(mine, job, AllEvents(script, clock), disk) == Follow(mine, moved, PollsOf(script, clock), d4)
  {
    hide Take, UploadEvents, PollsOf;
    var probe := ReplyEvent(script.preflight);
    var ups, tail := UploadEvents(script.uploads, script.size), TailEvents(script, clock);
    FollowOne(mine, job, Go, [probe] + (ups + tail), disk);
    var (began, d1) := Take(mine, job, Go, disk);
    FollowOne(mine, began, probe, ups + tail, d1);
    var (probed, d2) := Take(mine, began, probe, d1);
    FollowConcat(mine, probed, ups, tail, d2);
    var (loaded, d3) := Follow(mine, probed, ups, d2);
    FollowOne(mine, loaded, TransferEvent(script.transfer), PollsOf(script, clock), d3);
  }

  /** Whatever the node answers, however long it takes and whichever file writes fail, the
      worker ends, and the operation is then in a terminal state. */
  lemma EveryInstallEnds(mine: Node, id: nat, script: Script, clock: int, disk: seq<bool>)
    ensures var end := Follow(mine, Job(Begin, Fresh(id)), AllEvents(script, clock), disk).0;
            end.phase == Done && Terminal(end.op.state)
  {
    var job := Job(Begin, Fresh(id));
    InstallUnfolds(mine, job, script, clock, disk);
    var (began, d1) := Take(mine, job, Go, disk);
    var (probed, d2) := Take(mine, began, ReplyEvent(script.preflight), d1);
    UploadsStay(mine, probed, script.uploads, script.size, d2);
    var (loaded, d3) := Follow(mine, probed, UploadEvents(script.uploads, script.size), d2);
    var (moved, d4) := Take(mine, loaded, TransferEvent(script.transfer), d3);
    TransferIsUnderway(mine, loaded, script.transfer, d3);
    PollsEnd(mine, moved, InTime(script.polls, clock, clock + VALIDATION_TIME), d4);
    hide Take, InTime;
    FollowTerminates(mine, job, AllEvents(script, clock), disk);
  }

  lemma TransferIsUnderway(mine: Node, job: Job, transfer: Transfer, disk: seq<bool>)
    requires job.phase.Installing? || job.phase.Aborted? || Underway(job.phase)
    ensures Underway(Take(mine, job, TransferEvent(transfer), disk).0.phase)
  {
  }

  /** A worker that is done has ended its operation. */
  lemma {:induction false} FollowTerminates(mine: Node, job: Job, events: seq<Event>, disk: seq<bool>)
    requires job.phase.Done? ==> Terminal(job.op.state)
    ensures var end := Follow(mine, job, events, disk).0; end.phase.Done? ==> Terminal(end.op.state)
    decreases events
  {
    if events != [] {
      var (next, later) := Take(mine, job, events[0], disk);
      FollowTerminates(mine, next, events[1..], later);
    }
  }

  // ----- the verdict

  /** The first ruling on a trace of answers from position k on. */
  function VerdictFrom(mine: Node, source: Partition, lost: bool, trace: Trace, k: nat): OpState
    requires k <= |trace|
    decreases |trace| - k
  {
    if k == |trace| then Uncertain
    else if Ruling(mine, source, lost, trace, k).Some? then Ruling(mine, source, lost, trace, k).value
    else VerdictFrom(mine, source, lost, trace, k + 1)
  }

  lemma {:induction false} FirstRuling(mine: Node, source: Partition, lost: bool, trace: Trace, from: nat)
    returns (k: nat)
    requires from <= |trace|
    ensures from <= k <= |trace|
    ensures forall j :: from <= j < k ==> Ruling(mine, source, lost, trace, j).None?
    ensures k < |trace| ==> Ruling(mine, source, lost, trace, k).Some?
    ensures VerdictFrom(mine, source, lost, trace, from) ==
            if k < |trace| then Ruling(mine, source, lost, trace, k).value else Uncertain
    decreases |trace| - from
  {
    hide Ruling;
    if from == |trace| || Ruling(mine, source, lost, trace, from).Some? {
      k := from;
    } else {
      k := FirstRuling(mine, source, lost, trace, from + 1);
    }
  }

  /** How an installation ends, read off the answers. */
  function Verdict(mine: Node, script: Script, clock: int): OpState {
    match script.preflight
    case Unreachable => Failed
    case Broken => Failed
    case Status(remote) =>
      if remote.node != mine || remote.partition.Unsupported? then Failed
      else
        match script.transfer
        case Rejected => Failed
        case Unknown(_) =>
          VerdictFrom(mine, remote.partition, true, InTime(script.polls, clock, clock + VALIDATION_TIME), 0)
        case Taken(target, _) =>
          if target != Other(remote.partition) then Failed
          else VerdictFrom(mine, remote.partition, false, InTime(script.polls, clock, clock + VALIDATION_TIME), 0)
  }

  lemma {:induction false} UploadsAreWritten(mine: Node, job: Job, uploads: seq<nat>, size: nat)
    requires job.phase.Installing? || job.phase.Done?
    ensures var (end, later) := Follow(mine, job, UploadEvents(uploads, size), []);
            end.phase == job.phase && later == [] && (job.phase.Done? ==> end == job)
    decreases uploads
  {
    if uploads != [] {
      assert UploadEvents(uploads, size)[1..] == UploadEvents(uploads[1..], size);
      UploadsAreWritten(mine, Take(mine, job, Progress(uploads[0], size), []).0, uploads[1..], size);
    }
  }

  predicate AllWritten(disk: seq<bool>) {
    forall i :: 0 <= i < |disk| ==> disk[i]
  }

  lemma {:induction false} WrittenAsAssumed(mine: Node, job: Job, events: seq<Event>, disk: seq<bool>)
    requires AllWritten(disk)
    ensures Follow(mine, job, events, disk).0 == Follow(mine, job, events, []).0
    decreases events
  {
    if events != [] {
      var (next, later) := Take(mine, job, events[0], disk);
      assert Take(mine, job, events[0], []) == (next, []);
      assert later == disk || (disk != [] && later == disk[1..]);
      hide Take;
      WrittenAsAssumed(mine, next, events[1..], later);
    }
  }

  /** When every file write succeeds, every installation ends in exactly that state. */
  lemma InstallEndsInVerdict(mine: Node, id: nat, script: Script, clock: int, disk: seq<bool>)
    requires AllWritten(disk)
    ensures var end := Follow(mine, Job(Begin, Fresh(id)), AllEvents(script, clock), disk).0;
            end.op.state == Verdict(mine, script, clock)
  {
    WrittenAsAssumed(mine, Job(Begin, Fresh(id)), AllEvents(script, clock), disk);
    hide AllEvents, Verdict;
    InstallEndsAsRuled(mine, id, script, clock);
  }

  lemma BeginHealthy(mine: Node, id: nat, preflight: Reply)
    ensures var began := Take(mine, Job(Begin, Fresh(id)), Go, []);
            var probed := Take(mine, began.0, ReplyEvent(preflight), []);
            && began.1 == [] && probed.1 == []
            && if preflight.Status? && preflight.remote.node == mine && !preflight.remote.partition.Unsupported?
               then probed.0.phase == Installing(preflight.remote.partition)
               else probed.0.phase == Done && probed.0.op.state == Failed
  {
  }

  lemma TransferHealthy(mine: Node, job: Job, transfer: Transfer)
    requires job.phase.Installing? || job.phase.Done?
    ensures var (moved, later) := Take(mine, job, TransferEvent(transfer), []);
            && later == []
            && (job.phase.Done? ==> moved == job)
            && (job.phase.Installing? ==>
                  match transfer
                  case Rejected => moved.phase == Done && moved.op.state == Failed
                  case Unknown(_) => moved.phase == Polling(job.phase.source, true, false)
                  case Taken(target, _) =>
                    if target != Other(job.phase.source) then moved.phase == Done && moved.op.state == Failed
                    else moved.phase == Polling(job.phase.source, false, false))
  {
  }

  lemma InstallEndsAsRuled(mine: Node, id: nat, script: Script, clock: int)
    ensures Follow(mine, Job(Begin, Fresh(id)), AllEvents(script, clock), []).0.op.state == Verdict(mine, script, clock)
  {
    var job := Job(Begin, Fresh(id));
    InstallUnfolds(mine, job, script, clock, []);
    var probed := Take(mine, Take(mine, job, Go, []).0, ReplyEvent(script.preflight), []).0;
    UploadsAreWritten(mine, probed, script.uploads, script.size);
    var loaded := Follow(mine, probed, UploadEvents(script.uploads, script.size), []).0;
    var moved := Take(mine, loaded, TransferEvent(script.transfer), []).0;
    var trace := InTime(script.polls, clock, clock + VALIDATION_TIME);
    BeginHealthy(mine, id, script.preflight);
    TransferHealthy(mine, loaded, script.transfer);
    hide Take, Follow, InTime, PollEvents, Ruling, VerdictFrom, UploadEvents;
    if moved.phase.Done? {
      FollowDone(mine, moved, PollEvents(trace), []);
    } else {
      var k := FirstRuling(mine, moved.phase.source, moved.phase.lost, trace, 0);
      FirstRulingDecides(mine, moved, moved.phase.source, moved.phase.lost, trace, 0, k);
      assert trace[0..] == trace;
    }
  }
}
