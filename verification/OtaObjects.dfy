/** OtaCoordinator as the program has it: a table that its methods update in place, and a
    file write after every update that may fail.  Each method of _run_install is proved
    against the run of OtaRuns on the same answers and the same file writes. */
module OtaObjects {
  import opened Common
  import opened Ota
  import opened OtaRuns

  /** One answer of the poll loop: another poll, the end, or an exception. */
  datatype Judgement = GoOn(saw: bool) | Over | Raised

  class OtaCoordinator {
    const keys: set<Node>
    var operations: map<Node, Operation>
    var nextId: nat
    var clock: nat
    /** The outcomes of the file writes to come. */
    var disk: seq<bool>

    constructor (keys: set<Node>, clock: nat, disk: seq<bool>)
      ensures operations == map[] && nextId == 0
      ensures this.keys == keys && this.clock == clock && this.disk == disk
    {
      this.keys, this.clock, this.disk := keys, clock, disk;
      operations, nextId := map[], 0;
    }

    method Persist() returns (ok: bool)
      modifies this`disk
      ensures ok == NextWrite(old(disk)) && disk == LaterWrites(old(disk))
    {
      ok := disk == [] || disk[0];
      disk := if disk == [] then [] else disk[1..];
    }

    /** _set: the named fields of the current operation of the node, then the file. */
    method Set(node: Node, state: OpState, source: Option<Partition>, bytes: Option<nat>, remote: Option<Remote>)
      returns (ok: bool)
      requires node in operations
      modifies this`operations, this`disk
      ensures var op := old(operations[node]);
              operations == old(operations)[node := op.(
                state := state,
                source := if source.Some? then source else op.source,
                bytes := if bytes.Some? then bytes.value else op.bytes,
                remote := if remote.Some? then remote else op.remote)]
      ensures ok == NextWrite(old(disk)) && disk == LaterWrites(old(disk))
    {
      var op := operations[node];
      op := op.(state := state);
      if source.Some? { op := op.(source := source); }
      if bytes.Some? { op := op.(bytes := bytes.value); }
      if remote.Some? { op := op.(remote := remote); }
      operations := operations[node := op];
      ok := Persist();
    }

    method SetState(node: Node, state: OpState) returns (ok: bool)
      requires node in operations
      modifies this`operations, this`disk
      ensures operations == old(operations)[node := old(operations[node]).(state := state)]
      ensures ok == NextWrite(old(disk)) && disk == LaterWrites(old(disk))
    {
      ok := Set(node, state, None, None, None);
    }

    /** The nested progress callback: only for its own operation. */
    method ReportProgress(node: Node, id: nat, written: nat) returns (ok: bool)
      modifies this`operations, this`disk
      ensures var own := node in old(operations) && old(operations)[node].id == id;
              && operations == (if own then old(operations)[node :=
                   old(operations)[node].(state := Uploading, bytes := written)] else old(operations))
              && ok == (!own || NextWrite(old(disk)))
              && disk == if own then LaterWrites(old(disk)) else old(disk)
    {
      if node !in operations || operations[node].id != id {
        return true;
      }
      ok := Set(node, Uploading, None, Some(written), None);
    }

    /** start_install up to the start of the thread; image and address are in order.
        Success(true): the thread is started.  Success(false): the file write raised after
        the operation was entered.  At most one operation is active afterwards. */
    method StartInstall(node: Node) returns (r: Result<bool, string>)
      modifies this`operations, this`nextId, this`disk
      ensures var before := Coordinator(old(nextId), old(operations), map[]);
              && (r.Failure? <==> node !in keys || AnyActive(before))
              && (r.Failure? ==> operations == old(operations) && nextId == old(nextId) && disk == old(disk))
              && (r.Success? ==>
                    && r.value == NextWrite(old(disk)) && disk == LaterWrites(old(disk))
                    && Coordinator(nextId, operations, map[]) == Started(before, node, false))
      ensures r.Success? ==> forall n :: n in operations && !Terminal(operations[n].state) ==> n == node
    {
      ghost var before := Coordinator(nextId, operations, map[]);
      if node !in keys {
        return Failure("unknown node_id");
      }
      if node in operations && !Terminal(operations[node].state) {
        assert AnyActive(before);
        return Failure("OTA operation is already active");
      }
      if exists n :: n in operations && n != node && !Terminal(operations[n].state) {
        assert AnyActive(before);
        return Failure("another node OTA operation is already active");
      }
      assert !AnyActive(before);
      operations := operations[node := Operation(nextId, Queued, None, 0, None)];
      nextId := nextId + 1;
      var ok := Persist();
      r := Success(ok);
    }

    /** The upload, which reports its progress chunk by chunk; a report that cannot be
        written ends it.  The events are those that follow in the run. */
    method Upload(node: Node, id: nat, source: Partition, uploads: seq<nat>, size: nat, ghost rest: seq<Event>)
      returns (aborted: bool, sent: Option<nat>, ghost unread: seq<Event>)
      requires node in operations && operations[node].id == id && rest != []
      modifies this`operations, this`disk
      ensures node in operations && operations == old(operations)[node := operations[node]]
      ensures var all := Follow(node, Job(Installing(source), old(operations[node])),
                                UploadEvents(uploads, size) + rest, old(disk));
              all == if !aborted then Follow(node, Job(Installing(source), operations[node]), rest, disk)
                     else Follow(node, Job(Aborted(source, sent), operations[node]), unread + rest, disk)
      ensures UnreadUploads(unread)
    {
      hide Take, Act;
      var i := 0;
      aborted, sent, unread := false, None, [];
      ghost var job := Job(Installing(source), operations[node]);
      assert uploads[0..] == uploads;
      while i < |uploads|
        invariant 0 <= i <= |uploads|
        invariant node in operations && operations[node].id == id
        invariant operations == old(operations)[node := operations[node]]
        invariant Follow(node, job, UploadEvents(uploads, size) + rest, old(disk)) ==
                  Follow(node, Job(Installing(source), operations[node]), UploadEvents(uploads[i..], size) + rest, disk)
      {
        ghost var now := Job(Installing(source), operations[node]);
        ghost var more := UploadEvents(uploads[i + 1..], size);
        assert UploadEvents(uploads[i..], size) + rest == [Progress(uploads[i], size)] + (more + rest);
        FollowOne(node, now, Progress(uploads[i], size), more + rest, disk);
        ProgressTaken(node, now, uploads[i], size, disk);
        var ok := ReportProgress(node, id, uploads[i]);
        if !ok {
          aborted, sent := true, if uploads[i] >= size then Some(size) else None;
          unread := more;
          return;
        }
        i := i + 1;
      }
      assert UploadEvents(uploads[i..], size) + rest == rest;
    }

    /** One answer of the poll loop. */
    method Judge(node: Node, source: Partition, lost: bool, saw: bool, remote: Remote, ghost rest: seq<Event>)
      returns (r: Judgement)
      requires node in operations && rest != []
      modifies this`operations, this`disk
      ensures node in operations && operations == old(operations)[node := operations[node]]
      ensures var all := Follow(node, Job(Polling(source, lost, saw), old(operations[node])),
                                [Answer(remote)] + ([Go] + rest), old(disk));
              match r
              case GoOn(seen) => all == Follow(node, Job(Polling(source, lost, seen), operations[node]), rest, disk)
              case Over => all == Ending(false, operations[node], disk)
              case Raised => all == Ending(true, operations[node], disk)
    {
      AnswerUnfolds(node, Job(Polling(source, lost, saw), operations[node]), remote, rest, disk);
      var ok := Set(node, if lost then Reconciling else Validating, None, None, Some(remote));
      if !ok || remote.node != node {
        return Raised;
      }
      if remote.partition == Other(source) && remote.pending.Yes? {
        return GoOn(true);
      }
      var state: OpState;
      if remote.partition == Other(source) && remote.pending.No? {
        state := Succeeded;
      } else if remote.pending.No? && remote.partition == source && saw {
        state := RolledBack;
      } else if lost && remote.pending.No? && remote.partition == source && !remote.activity.Busy? {
        state := Failed;
      } else {
        return GoOn(saw);
      }
      ok := Set(node, state, None, None, Some(remote));
      r := if ok then Over else Raised;
    }

    /** The poll loop; the time that is left is its measure. */
    method AwaitValidation(node: Node, source: Partition, lost: bool, polls: seq<Poll>) returns (raised: bool)
      requires node in operations
      modifies this`operations, this`clock, this`disk
      ensures node in operations && operations == old(operations)[node := operations[node]]
      ensures Follow(node, Job(Polling(source, lost, false), old(operations[node])),
                     PollEvents(InTime(polls, old(clock), old(clock) + VALIDATION_TIME)), old(disk)) ==
              Ending(raised, operations[node], disk)
    {
      hide Take, Follow, Ending;
      var deadline := clock + VALIDATION_TIME;
      var saw, rest := false, polls;
      ghost var goal := Follow(node, Job(Polling(source, lost, false), operations[node]),
                               PollEvents(InTime(polls, clock, deadline)), disk);
      while clock < deadline
        invariant node in operations && operations == old(operations)[node := operations[node]]
        invariant goal == Follow(node, Job(Polling(source, lost, saw), operations[node]),
                                 PollEvents(InTime(rest, clock, deadline)), disk)
        decreases deadline - clock
      {
        ghost var job := Job(Polling(source, lost, saw), operations[node]);
        var poll := if rest == [] then Poll(0, Unreachable) else rest[0];
        ghost var trace := InTime(rest, clock, deadline);
        rest := if rest == [] then [] else rest[1..];
        clock := clock + POLL_INTERVAL + poll.wait;
        ghost var later := InTime(rest, clock, deadline);
        assert trace == [poll.answer] + later;
        assert ([poll.answer] + later)[1..] == later;
        match poll.answer {
          case Unreachable => SilenceChangesNothing(node, job, PollEvents(later), disk);
          case Broken =>
            RaisedEnds(node, job, Crash, [Go] + PollEvents(later), disk);
            return true;
          case Status(remote) =>
            var judgement := Judge(node, source, lost, saw, remote, PollEvents(later));
            match judgement {
              case GoOn(seen) => saw := seen;
              case Over => return false;
              case Raised => return true;
            }
        }
      }
      TimeoutEnds(node, Job(Polling(source, lost, saw), operations[node]), disk);
      var ok := SetState(node, Uncertain);
      raised := !ok;
    }

    /** After the upload ended with ServiceOtaUncertainError. */
    method Reconcile(node: Node, source: Partition, size: nat, script: Script, ghost unread: seq<Event>)
      returns (raised: bool)
      requires node in operations && UnreadUploads(unread)
      modifies this`operations, this`clock, this`disk
      ensures node in operations && operations == old(operations)[node := operations[node]]
      ensures Follow(node, Job(Aborted(source, Some(size)), old(operations[node])),
                     [Go] + (unread + PollsOf(script, old(clock))), old(disk)) ==
              Ending(raised, operations[node], disk)
    {
      hide Follow, InTime;
      ReconcileUnfolds(node, operations[node], source, size, unread, PollsOf(script, clock), disk);
      var ok := Set(node, Reconciling, None, Some(size), None);
      if !ok {
        return true;
      }
      raised := AwaitValidation(node, source, true, script.polls);
    }

    /** After an upload whose reports were all written. */
    method Finish(node: Node, source: Partition, script: Script) returns (raised: bool)
      requires node in operations
      modifies this`operations, this`clock, this`disk
      ensures node in operations && operations == old(operations)[node := operations[node]]
      ensures Follow(node, Job(Installing(source), old(operations[node])), TailEvents(script, old(clock)), old(disk)) ==
              Ending(raised, operations[node], disk)
    {
      hide Follow, InTime;
      TransferUnfolds(node, operations[node], source, script.transfer, PollsOf(script, clock), disk);
      var ok: bool;
      match script.transfer {
        case Rejected => return true;
        case Unknown(size) => ok := Set(node, Reconciling, None, Some(size), None);
        case Taken(target, written) =>
          if target != Other(source) {
            return true;
          }
          ok := Set(node, Rebooting, None, Some(written), None);
      }
      if !ok {
        return true;
      }
      raised := AwaitValidation(node, source, script.transfer.Unknown?, script.polls);
    }

    /** The try block of _run_install. */
    method TryInstall(node: Node, id: nat, script: Script) returns (raised: bool)
      requires node in operations && operations[node] == Fresh(id)
      modifies this`operations, this`clock, this`disk
      ensures node in operations && operations == old(operations)[node := operations[node]]
      ensures Follow(node, Job(Begin, Fresh(id)), AllEvents(script, old(clock) + script.transferTime), old(disk)) ==
              Ending(raised, operations[node], disk)
    {
      hide Follow, UploadEvents, InTime, PollEvents, UnreadUploads;
      ghost var polls := PollsOf(script, clock + script.transferTime);
      ghost var last := TransferEvent(script.transfer);
      ghost var events := UploadEvents(script.uploads, script.size) + ([last] + polls);
      StartUnfolds(node, Fresh(id), script.preflight, events, disk);
      var ok := SetState(node, OpState.Preflight);
      if !ok {
        return true;
      }
      match script.preflight {
        case Unreachable => return true;
        case Broken => return true;
        case Status(remote) =>
          if remote.node != node || remote.partition.Unsupported? {
            return true;
          }
          var source := remote.partition;
          ok := Set(node, Authorizing, Some(source), None, Some(remote));
          if !ok {
            return true;
          }
          var aborted, sent, unread := Upload(node, id, source, script.uploads, script.size, [last] + polls);
          clock := clock + script.transferTime;
          if !aborted {
            raised := Finish(node, source, script);
          } else {
            assert UnreadUploads(unread + [last]) by { LastIsUnread(unread, script.transfer); }
            ghost var tail := AbortReadsNothing(node, operations[node], source, sent, unread, last, polls, disk);
            match sent {
              case None => raised := true;
              case Some(size) => raised := Reconcile(node, source, size, script, tail);
            }
          }
      }
    }

    /** _run_install.  Whatever file writes fail, the operation becomes what the run makes of
        it, which is terminal; when all succeed it ends in the verdict on the answers; the
        operations of other nodes stay as they are. */
    method RunInstall(node: Node, id: nat, script: Script)
      requires node in operations && operations[node] == Fresh(id)
      modifies this`operations, this`clock, this`disk
      ensures node in operations && operations == old(operations)[node := operations[node]]
      ensures (Job(Done, operations[node]), disk) ==
              Follow(node, Job(Begin, Fresh(id)), AllEvents(script, old(clock) + script.transferTime), old(disk))
      ensures Terminal(operations[node].state)
      ensures AllWritten(old(disk)) ==>
                operations[node].state == Verdict(node, script, old(clock) + script.transferTime)
    {
      hide Follow, AllEvents, Verdict;
      EveryInstallEnds(node, id, script, clock + script.transferTime, disk);
      if AllWritten(disk) {
        InstallEndsInVerdict(node, id, script, clock + script.transferTime, disk);
      }
      var raised := TryInstall(node, id, script);
      if raised {
        var _ := SetState(node, Failed);
      }
    }
  }

  lemma TransferUnfolds(
    node: Node, op: Operation, source: Partition, transfer: Transfer, polls: seq<Event>, disk: seq<bool>)
    requires polls != []
    ensures var event := TransferEvent(transfer);
            var (moved, later) := Take(node, Job(Installing(source), op), event, disk);
            var all := Follow(node, Job(Installing(source), op), [event] + polls, disk);
            && (Raises(node, Installing(source), event) ==> all == Ending(true, op, disk))
            && (!Raises(node, Installing(source), event) ==>
                  && later == LaterWrites(disk)
                  && all == if NextWrite(disk) then Follow(node, moved, polls, later)
                            else Ending(true, moved.op, later))
  {
    var event := TransferEvent(transfer);
    var job := Job(Installing(source), op);
    FollowOne(node, job, event, polls, disk);
    var (moved, later) := Take(node, job, event, disk);
    if Raises(node, job.phase, event) {
      RaisedEnds(node, job, event, polls, disk);
    } else if !NextWrite(disk) {
      assert polls == [polls[0]] + polls[1..];
      RaisedEnds(node, moved, polls[0], polls[1..], later);
    }
  }

  lemma StartUnfolds(node: Node, op: Operation, preflight: Reply, events: seq<Event>, disk: seq<bool>)
    requires events != []
    ensures var event := ReplyEvent(preflight);
            var (began, d1) := Take(node, Job(Begin, op), Go, disk);
            var (probed, d2) := Take(node, began, event, d1);
            var all := Follow(node, Job(Begin, op), [Go] + ([event] + events), disk);
            && began.op == op.(state := OpState.Preflight) && d1 == LaterWrites(disk)
            && (!NextWrite(disk) || Raises(node, Probing, event) ==> all == Ending(true, began.op, d1))
            && (NextWrite(disk) && !Raises(node, Probing, event) ==>
                  && d2 == LaterWrites(d1)
                  && all == if NextWrite(d1) then Follow(node, probed, events, d2) else Ending(true, probed.op, d2))
  {
    var event := ReplyEvent(preflight);
    FollowOne(node, Job(Begin, op), Go, [event] + events, disk);
    var (began, d1) := Take(node, Job(Begin, op), Go, disk);
    BeginTaken(node, op, disk);
    if Raises(node, began.phase, event) {
      RaisedEnds(node, began, event, events, d1);
    } else {
      FollowOne(node, began, event, events, d1);
      var (probed, d2) := Take(node, began, event, d1);
      ProbeTaken(node, began, preflight, d1);
      hide Take, Follow, Ending, ReplyEvent;
      if !NextWrite(d1) {
        assert events == [events[0]] + events[1..];
        RaisedEnds(node, probed, events[0], events[1..], d2);
      }
    }
  }

  lemma BeginTaken(node: Node, op: Operation, disk: seq<bool>)
    ensures var (began, d1) := Take(node, Job(Begin, op), Go, disk);
            && began == Job(if NextWrite(disk) then Probing else Handling, op.(state := OpState.Preflight))
            && d1 == LaterWrites(disk)
  {
  }

  lemma ProbeTaken(node: Node, began: Job, preflight: Reply, disk: seq<bool>)
    requires began.phase == Probing && !Raises(node, Probing, ReplyEvent(preflight))
    ensures var (probed, later) := Take(node, began, ReplyEvent(preflight), disk);
            later == LaterWrites(disk) && (!NextWrite(disk) ==> probed.phase == Handling)
  {
  }

  /** Progress reports and the end of the upload that a worker no longer reads. */
  ghost predicate UnreadUploads(events: seq<Event>) {
    forall e :: e in events ==> e.Progress? || e.Accepted? || e.Lost? || e.Refused?
  }

  lemma LastIsUnread(unread: seq<Event>, transfer: Transfer)
    requires UnreadUploads(unread)
    ensures UnreadUploads(unread + [TransferEvent(transfer)])
  {
  }

  lemma ProgressTaken(node: Node, job: Job, written: nat, size: nat, disk: seq<bool>)
    requires job.phase.Installing?
    ensures var (next, later) := Take(node, job, Progress(written, size), disk);
            && next.op == job.op.(state := Uploading, bytes := written) && later == LaterWrites(disk)
            && next.phase == if NextWrite(disk) then job.phase
                             else Aborted(job.phase.source, if written >= size then Some(size) else None)
  {
  }

  lemma AnswerUnfolds(node: Node, job: Job, remote: Remote, rest: seq<Event>, disk: seq<bool>)
    requires job.phase.Polling? && rest != []
    ensures var (judged, d1) := Take(node, job, Answer(remote), disk);
            var (next, d2) := Take(node, judged, Go, d1);
            && Follow(node, job, [Answer(remote)] + ([Go] + rest), disk) == Follow(node, next, rest, d2)
            && (next.phase.Done? ==> Follow(node, next, rest, d2) == (next, d2))
            && (next.phase.Handling? ==> Follow(node, next, rest, d2) == Ending(true, next.op, d2))
  {
    FollowOne(node, job, Answer(remote), [Go] + rest, disk);
    var (judged, d1) := Take(node, job, Answer(remote), disk);
    FollowOne(node, judged, Go, rest, d1);
    var (next, d2) := Take(node, judged, Go, d1);
    hide Take, Follow;
    if next.phase.Done? {
      FollowDone(node, next, rest, d2);
    } else if next.phase.Handling? {
      assert rest == [rest[0]] + rest[1..];
      RaisedEnds(node, next, rest[0], rest[1..], d2);
    }
  }

  lemma SilenceChangesNothing(node: Node, job: Job, rest: seq<Event>, disk: seq<bool>)
    requires job.phase.Polling?
    ensures Follow(node, job, [NoAnswer] + ([Go] + rest), disk) == Follow(node, job, rest, disk)
  {
    FollowOne(node, job, NoAnswer, [Go] + rest, disk);
    FollowOne(node, job, Go, rest, disk);
  }

  lemma ReconcileUnfolds(
    node: Node, op: Operation, source: Partition, size: nat, unread: seq<Event>, polls: seq<Event>, disk: seq<bool>)
    requires UnreadUploads(unread) && polls != []
    ensures var next := op.(state := Reconciling, bytes := size);
            Follow(node, Job(Aborted(source, Some(size)), op), [Go] + (unread + polls), disk) ==
            if NextWrite(disk) then Follow(node, Job(Polling(source, true, false), next), polls, LaterWrites(disk))
            else Ending(true, next, LaterWrites(disk))
  {
    var job := Job(Aborted(source, Some(size)), op);
    FollowOne(node, job, Go, unread + polls, disk);
    var (next, later) := Take(node, job, Go, disk);
    if NextWrite(disk) {
      UnreadIsIgnored(node, next, unread, polls, later);
    } else {
      var rest := unread + polls;
      assert rest == [rest[0]] + rest[1..];
      RaisedEnds(node, next, rest[0], rest[1..], later);
    }
  }

  lemma {:induction false} UnreadIsIgnored(
    node: Node, job: Job, unread: seq<Event>, polls: seq<Event>, disk: seq<bool>)
    requires UnreadUploads(unread) && job.phase.Polling?
    ensures Follow(node, job, unread + polls, disk) == Follow(node, job, polls, disk)
    decreases unread
  {
    if unread == [] {
      assert unread + polls == polls;
    } else {
      assert unread + polls == [unread[0]] + (unread[1..] + polls);
      FollowOne(node, job, unread[0], unread[1..] + polls, disk);
      assert unread[0] in unread && Take(node, job, unread[0], disk) == (job, disk);
      hide Take;
      UnreadIsIgnored(node, job, unread[1..], polls, disk);
    }
  }

  /** An aborted upload goes on in the same way whatever event comes next. */
  lemma AbortReadsNothing(
    node: Node, op: Operation, source: Partition, sent: Option<nat>, unread: seq<Event>, last: Event, polls: seq<Event>,
    disk: seq<bool>)
    returns (tail: seq<Event>)
    requires UnreadUploads(unread + [last])
    ensures UnreadUploads(tail)
    ensures var job := Job(Aborted(source, sent), op);
            var all := Follow(node, job, unread + ([last] + polls), disk);
            && all == Follow(node, job, [Go] + (tail + polls), disk)
            && (sent.None? ==> all == Ending(true, op, disk))
  {
    var job := Job(Aborted(source, sent), op);
    var events := unread + [last];
    tail := events[1..];
    assert unread + ([last] + polls) == [events[0]] + (tail + polls);
    FollowOne(node, job, events[0], tail + polls, disk);
    FollowOne(node, job, Go, tail + polls, disk);
    assert Take(node, job, events[0], disk) == Take(node, job, Go, disk);
    if sent.None? {
      RaisedEnds(node, job, Go, tail + polls, disk);
    }
  }
}
