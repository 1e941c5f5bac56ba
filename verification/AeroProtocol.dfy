/** The control path between ProcessAeroBus and its worker process, in
    src/ventilation_core/infrastructure/aero_bus_worker.py: a request queue and a
    result queue of capacity one, correlated by request id, with time-outs, worker
    deaths and restarts.

    The protocol is a state machine whose steps may interleave in any order; a step
    that is not enabled changes nothing, so a run is any sequence of steps.  The field
    exclusive says whether callers come through the AERO lock of VentilationService. */
module AeroProtocol {
  import opened Common
  import opened AeroControl

  datatype Request = Request(id: nat, command: Command)

  datatype Response = Response(id: nat, result: ControlResult)

  /** full: the last put found the queue full, so the next step takes the stale result. */
  datatype Worker = Down | Polling | Executing(request: Request) | Publishing(response: Response, full: bool)

  /** Who took a result out of the queue without returning it. */
  datatype Discard =
    | ByWorker(id: nat, stillAwaited: bool)
    | ByCaller(id: nat, stillAwaited: bool)
    | ByRestart(id: nat, stillAwaited: bool)

  /** The two queues hold at most one item each. */
  datatype State = State(
    exclusive: bool,
    nextId: nat,
    request: Option<Request>,
    reply: Option<Response>,
    worker: Worker,
    waiting: set<nat>,
    issued: map<nat, Command>,
    executed: map<nat, ControlResult>,
    answered: map<nat, ControlResult>,
    discards: seq<Discard>)

  function Start(exclusive: bool): State {
    State(exclusive, 0, None, None, Polling, {}, map[], map[], map[], [])
  }

  datatype Step =
    | Submit(command: Command)        // a caller puts its request
    | Receive(id: nat)                // a waiting caller gets from the result queue
    | GiveUp(id: nat)                 // a waiting caller times out
    | Take                            // the worker gets a request
    | Finish(outcome: ControlResult)  // the executor returns
    | Fail                            // the executor raises: the request is lost
    | TryPut                          // put_nowait of the publish loop
    | DropStale                       // get_nowait of the publish loop
    | Die                             // the worker process ends
    | Restart                         // health_check: queues emptied, new worker

  function Next(s: State, step: Step): State {
    match step
    case Submit(command) => Submitted(s, command)
    case Receive(id) => Received(s, id)
    case GiveUp(id) => s.(waiting := s.waiting - {id})
    case Take => Taken(s)
    case Finish(outcome) => Finished(s, outcome)
    case Fail => if s.worker.Executing? then s.(worker := Polling) else s
    case TryPut => PutTried(s)
    case DropStale => StaleDropped(s)
    case Die => s.(worker := Down)
    case Restart => Restarted(s)
  }

  /** Queue full: "command already pending"; lock held: "command already in progress". */
  function Submitted(s: State, command: Command): State {
    if s.request.Some? || s.worker.Down? || (s.exclusive && s.waiting != {}) then s
    else s.(nextId := s.nextId + 1, request := Some(Request(s.nextId, command)),
            waiting := s.waiting + {s.nextId}, issued := s.issued[s.nextId := command])
  }

  function Received(s: State, id: nat): State {
    if id !in s.waiting then s
    else
      match s.reply
      case None => s
      case Some(r) =>
        if r.id == id then s.(reply := None, waiting := s.waiting - {id}, answered := s.answered[id := r.result])
        else s.(reply := None, discards := s.discards + [ByCaller(r.id, r.id in s.waiting)])
  }

  function Taken(s: State): State {
    if s.worker.Polling? && s.request.Some? then s.(worker := Executing(s.request.value), request := None) else s
  }

  function Finished(s: State, outcome: ControlResult): State {
    match s.worker
    case Executing(request) =>
      var r := outcome.(command := request.command);
      s.(worker := Publishing(Response(request.id, r), false), executed := s.executed[request.id := r])
    case _ => s
  }

  function PutTried(s: State): State {
    match s.worker
    case Publishing(response, full) =>
      if full then s
      else if s.reply.None? then s.(reply := Some(response), worker := Polling)
      else s.(worker := Publishing(response, true))
    case _ => s
  }

  function StaleDropped(s: State): State {
    match s.worker
    case Publishing(response, full) =>
      if !full then s
      else
        var again := s.(worker := Publishing(response, false));
        if s.reply.None? then again
        else again.(reply := None, discards := s.discards + [ByWorker(s.reply.value.id, s.reply.value.id in s.waiting)])
    case _ => s
  }

  /** health_check empties both queues and starts a new worker. */
  function Restarted(s: State): State {
    if !s.worker.Down? then s
    else
      var next := s.(request := None, reply := None, worker := Polling);
      if s.reply.None? then next
      else next.(discards := s.discards + [ByRestart(s.reply.value.id, s.reply.value.id in s.waiting)])
  }

  function Run(s: State, steps: seq<Step>): State
    decreases steps
  {
    if steps == [] then s else Run(Next(s, steps[0]), steps[1..])
  }

  // ----- correlation, for any number of callers

  ghost predicate Executed(s: State, r: Response) {
    r.id in s.executed && s.executed[r.id] == r.result
  }

  ghost predicate Pending(s: State, r: Request) {
    r.id in s.issued && s.issued[r.id] == r.command && r.id !in s.executed
  }

  /** What holds at every point of every interleaving. */
  ghost predicate Correlated(s: State) {
    && (forall id: nat :: id in s.issued <==> id < s.nextId)
    && (forall id :: id in s.waiting ==> id < s.nextId)
    && (forall id :: id in s.executed ==> id in s.issued && s.executed[id].command == s.issued[id])
    && (forall id :: id in s.answered ==> id in s.executed && s.answered[id] == s.executed[id])
    && (s.request.Some? ==> Pending(s, s.request.value))
    && (s.reply.Some? ==> Executed(s, s.reply.value))
    && (s.worker.Executing? ==> Pending(s, s.worker.request))
    && (s.worker.Executing? && s.request.Some? ==> s.request.value.id != s.worker.request.id)
    && (s.worker.Publishing? ==> Executed(s, s.worker.response))
  }

  lemma SubmittedKeepsCorrelated(s: State, command: Command)
    requires Correlated(s)
    ensures Correlated(Submitted(s, command))
  {
  }

  lemma ReceivedKeepsCorrelated(s: State, id: nat)
    requires Correlated(s)
    ensures Correlated(Received(s, id))
  {
  }

  lemma FinishedKeepsCorrelated(s: State, outcome: ControlResult)
    requires Correlated(s)
    ensures Correlated(Finished(s, outcome))
  {
  }

  lemma PublishingKeepsCorrelated(s: State)
    requires Correlated(s)
    ensures Correlated(PutTried(s)) && Correlated(StaleDropped(s))
  {
  }

  lemma NextKeepsCorrelated(s: State, step: Step)
    requires Correlated(s)
    ensures Correlated(Next(s, step))
  {
    hide Submitted, Received, Finished, PutTried, StaleDropped;
    match step
    case Submit(command) => SubmittedKeepsCorrelated(s, command);
    case Receive(id) => ReceivedKeepsCorrelated(s, id);
    case Finish(outcome) => FinishedKeepsCorrelated(s, outcome);
    case TryPut => PublishingKeepsCorrelated(s);
    case DropStale => PublishingKeepsCorrelated(s);
    case _ =>
  }

  lemma {:induction false} RunKeepsCorrelated(s: State, steps: seq<Step>)
    requires Correlated(s)
    ensures Correlated(Run(s, steps))
    decreases steps
  {
    hide Correlated, Next;
    if steps != [] {
      NextKeepsCorrelated(s, steps[0]);
      RunKeepsCorrelated(Next(s, steps[0]), steps[1..]);
    }
  }

  /** In every interleaving, with or without the lock, whatever a caller gets back is
      the result of executing its own command, executed for its own request. */
  lemma OnlyOwnResult(exclusive: bool, steps: seq<Step>, id: nat)
    ensures var s := Run(Start(exclusive), steps);
            id in s.answered ==>
              && id in s.executed && s.answered[id] == s.executed[id]
              && id in s.issued && s.answered[id].command == s.issued[id]
  {
    RunKeepsCorrelated(Start(exclusive), steps);
  }

  lemma NextKeepsExecuted(s: State, step: Step, id: nat)
    requires Correlated(s) && id in s.executed
    ensures id in Next(s, step).executed && Next(s, step).executed[id] == s.executed[id]
  {
  }

  /** A request is executed at most once: its recorded result never changes. */
  lemma {:induction false} ExecutedOnce(s: State, steps: seq<Step>, id: nat)
    requires Correlated(s) && id in s.executed
    ensures id in Run(s, steps).executed && Run(s, steps).executed[id] == s.executed[id]
    decreases steps
  {
    if steps != [] {
      NextKeepsCorrelated(s, steps[0]);
      NextKeepsExecuted(s, steps[0], id);
      hide Correlated, Next;
      ExecutedOnce(Next(s, steps[0]), steps[1..], id);
    }
  }

  // ----- with the lock: only abandoned results are discarded

  /** The newest request is the only one anybody can be waiting for, and requests pass
      the queues in the order of their ids. */
  ghost predicate InOrder(s: State) {
    && s.exclusive
    && (forall id :: id in s.waiting ==> id + 1 == s.nextId)
    && (s.request.Some? ==> s.request.value.id + 1 == s.nextId)
    && (s.worker.Executing? ==> Before(s.worker.request.id, s))
    && (s.worker.Publishing? ==> Before(s.worker.response.id, s))
    && (s.reply.Some? ==> Before(s.reply.value.id, s))
    && (s.reply.Some? && s.worker.Executing? ==> s.reply.value.id < s.worker.request.id)
    && (s.reply.Some? && s.worker.Publishing? ==> s.reply.value.id < s.worker.response.id)
    && (forall d :: d in s.discards ==> d.ByRestart? || !d.stillAwaited)
  }

  /** The id is issued, and older than the request that is queued. */
  ghost predicate Before(id: nat, s: State) {
    id < s.nextId && (s.request.Some? ==> id < s.request.value.id)
  }

  lemma NextKeepsInOrder(s: State, step: Step)
    requires Correlated(s) && InOrder(s)
    ensures InOrder(Next(s, step))
  {
  }

  lemma {:induction false} RunKeepsInOrder(s: State, steps: seq<Step>)
    requires Correlated(s) && InOrder(s)
    ensures InOrder(Run(s, steps))
    decreases steps
  {
    hide Correlated, InOrder, Next;
    if steps != [] {
      NextKeepsCorrelated(s, steps[0]);
      NextKeepsInOrder(s, steps[0]);
      RunKeepsInOrder(Next(s, steps[0]), steps[1..]);
    }
  }

  /** With the lock, neither the publish loop nor a waiting caller ever discards a
      result that is still awaited; only the restart of a worker that ended may. */
  lemma OnlyAbandonedResultsDiscarded(steps: seq<Step>)
    ensures forall d :: d in Run(Start(true), steps).discards ==> d.ByRestart? || !d.stillAwaited
    ensures Restart !in steps ==> forall d :: d in Run(Start(true), steps).discards ==> !d.stillAwaited
  {
    RunKeepsInOrder(Start(true), steps);
    if Restart !in steps {
      NoRestartNoRestartDiscard(Start(true), steps);
    }
  }

  lemma {:induction false} NoRestartNoRestartDiscard(s: State, steps: seq<Step>)
    requires Restart !in steps && forall d :: d in s.discards ==> !d.ByRestart?
    ensures forall d :: d in Run(s, steps).discards ==> !d.ByRestart?
    decreases steps
  {
    if steps != [] {
      assert steps[0] in steps;
      OnlyRestartDiscardsByRestart(s, steps[0]);
      hide Next;
      NoRestartNoRestartDiscard(Next(s, steps[0]), steps[1..]);
    }
  }

  lemma OnlyRestartDiscardsByRestart(s: State, step: Step)
    requires step != Restart && forall d :: d in s.discards ==> !d.ByRestart?
    ensures forall d :: d in Next(s, step).discards ==> !d.ByRestart?
  {
  }

  /** It does happen: the worker publishes, dies, and is replaced before the caller looks. */
  lemma RestartCanLoseAwaitedResult(c: Command, r: ControlResult)
    ensures var steps := [Submit(c), Take, Finish(r)] + [TryPut, Die, Restart];
            ByRestart(0, true) in Run(Start(true), steps).discards
  {
    RunOfThree(Start(true), Submit(c), Take, Finish(r), [TryPut, Die, Restart]);
    var s3 := Next(Next(Next(Start(true), Submit(c)), Take), Finish(r));
    RunOfThree(s3, TryPut, Die, Restart, []);
    assert [TryPut, Die, Restart] + [] == [TryPut, Die, Restart];
    assert s3.worker == Publishing(Response(0, r.(command := c)), false) && s3.waiting == {0};
  }

  /** Without the lock that fails: one of two callers can throw away the other's result. */
  lemma WithoutLockAwaitedResultIsLost(c: Command, r: ControlResult)
    ensures var steps := [Submit(c), Take, Submit(c)] + [Finish(r), TryPut, Receive(1)];
            ByCaller(0, true) in Run(Start(false), steps).discards
  {
    RunOfThree(Start(false), Submit(c), Take, Submit(c), [Finish(r), TryPut, Receive(1)]);
    var s3 := Next(Next(Next(Start(false), Submit(c)), Take), Submit(c));
    RunOfThree(s3, Finish(r), TryPut, Receive(1), []);
    assert [Finish(r), TryPut, Receive(1)] + [] == [Finish(r), TryPut, Receive(1)];
    assert s3.worker == Executing(Request(0, c)) && s3.waiting == {0, 1};
  }

  lemma RunOfThree(s: State, a: Step, b: Step, c: Step, rest: seq<Step>)
    ensures Run(s, [a, b, c] + rest) == Run(Next(Next(Next(s, a), b), c), rest)
  {
    hide Next;
    RunOfOne(s, a, [b, c] + rest);
    RunOfOne(Next(s, a), b, [c] + rest);
    RunOfOne(Next(Next(s, a), b), c, rest);
    assert [a, b, c] + rest == [a] + ([b, c] + rest) && [b, c] + rest == [b] + ([c] + rest);
  }

  lemma RunOfOne(s: State, a: Step, rest: seq<Step>)
    ensures Run(s, [a] + rest) == Run(Next(s, a), rest)
  {
    hide Next;
    assert ([a] + rest)[1..] == rest;
  }

  // ----- the publish loop ends

  /** Turns the publish loop still needs. */
  function PublishTurns(s: State): nat {
    if !s.worker.Publishing? then 0
    else if s.worker.full then 2
    else if s.reply.None? then 1 else 3
  }

  /** The turn the publish loop takes next. */
  function PublishTurn(s: State): Step {
    if s.worker.Publishing? && s.worker.full then DropStale else TryPut
  }

  /** Each turn of the loop brings it closer to its end and no step of anybody else sets
      it back, since only the worker puts results; so three turns always suffice. */
  lemma PublishEnds(s: State, step: Step)
    requires s.worker.Publishing?
    ensures 0 < PublishTurns(s) <= 3
    ensures PublishTurns(Next(s, step)) <= PublishTurns(s)
    ensures step == PublishTurn(s) ==> PublishTurns(Next(s, step)) < PublishTurns(s)
    ensures step != Die && PublishTurns(Next(s, step)) == 0 ==> Next(s, step).reply == Some(s.worker.response)
  {
  }

  /** A result that is awaited stays in the queue until its caller takes it, its caller
      gives up, or the worker is restarted. */
  lemma AwaitedResultStays(s: State, step: Step)
    requires Correlated(s) && InOrder(s)
    requires s.reply.Some? && s.reply.value.id in s.waiting
    requires step != Receive(s.reply.value.id) && step != GiveUp(s.reply.value.id) && step != Restart
    ensures Next(s, step).reply == s.reply && s.reply.value.id in Next(s, step).waiting
  {
  }

  /** Left to themselves, an idle worker and one caller get the command executed and the
      caller answered, even past a stale result of an abandoned request. */
  lemma UndisturbedCommandIsAnswered(s: State, command: Command, outcome: ControlResult)
    requires s.worker.Polling? && s.request.None? && s.waiting == {}
    ensures var steps := [Submit(command), Take, Finish(outcome)] + ([TryPut, DropStale, TryPut] + [Receive(s.nextId)]);
            var end := Run(s, steps);
            && s.nextId in end.answered && end.answered[s.nextId] == outcome.(command := command)
            && end.worker.Polling? && end.request.None? && end.waiting == {}
  {
    var id := s.nextId;
    var response := Response(id, outcome.(command := command));
    SubmitToFinish(s, command, outcome);
    var s3 := Next(Next(Next(s, Submit(command)), Take), Finish(outcome));
    PublishInThree(s3, response);
    var s6 := Next(Next(Next(s3, TryPut), DropStale), TryPut);
    hide Next;
    RunOfThree(s, Submit(command), Take, Finish(outcome), [TryPut, DropStale, TryPut] + [Receive(id)]);
    RunOfThree(s3, TryPut, DropStale, TryPut, [Receive(id)]);
    RunOfOne(s6, Receive(id), []);
    assert [Receive(id)] + [] == [Receive(id)];
    ReceiveOwn(s6, response);
  }

  lemma SubmitToFinish(s: State, command: Command, outcome: ControlResult)
    requires s.worker.Polling? && s.request.None? && s.waiting == {}
    ensures var end := Next(Next(Next(s, Submit(command)), Take), Finish(outcome));
            && end.worker == Publishing(Response(s.nextId, outcome.(command := command)), false)
            && end.waiting == {s.nextId} && end.request.None? && end.reply == s.reply && end.nextId == s.nextId + 1
  {
  }

  lemma PublishInThree(s: State, response: Response)
    requires s.worker == Publishing(response, false)
    ensures var end := Next(Next(Next(s, TryPut), DropStale), TryPut);
            && end.worker.Polling? && end.reply == Some(response)
            && end.waiting == s.waiting && end.request == s.request && end.answered == s.answered
  {
    var first := PutTried(s);
    PutOnce(s, response);
    var second := StaleDropped(first);
    assert Next(s, TryPut) == first && Next(first, DropStale) == second && Next(second, TryPut) == PutTried(second);
    hide Next, PutTried, StaleDropped;
    if s.reply.Some? {
      DropOnce(first, response);
      PutOnce(second, response);
    } else {
      IdleTurns(first);
    }
  }

  /** A put that finds the queue empty ends the loop; otherwise the stale result is next. */
  lemma PutOnce(s: State, response: Response)
    requires s.worker == Publishing(response, false)
    ensures PutTried(s) == if s.reply.None? then s.(reply := Some(response), worker := Polling)
                           else s.(worker := Publishing(response, true))
  {
  }

  lemma DropOnce(s: State, response: Response)
    requires s.worker == Publishing(response, true) && s.reply.Some?
    ensures var d := StaleDropped(s);
            d.reply.None? && d.worker == Publishing(response, false) &&
            d.waiting == s.waiting && d.request == s.request && d.answered == s.answered
  {
  }

  lemma IdleTurns(s: State)
    requires s.worker.Polling?
    ensures StaleDropped(s) == s && PutTried(s) == s
  {
  }

  lemma ReceiveOwn(s: State, response: Response)
    requires s.reply == Some(response) && s.waiting == {response.id}
    ensures var end := Next(s, Receive(response.id));
            && response.id in end.answered && end.answered[response.id] == response.result
            && end.waiting == {} && end.worker == s.worker && end.request == s.request
  {
  }

  // ----- the two loops

  class ResultQueue {
    var slot: Option<Response>

    constructor ()
      ensures slot == None
    {
      slot := None;
    }

    /** The consumer on the other side may take the result at any moment. */
    method MaybeTaken(taken: bool)
      modifies this
      ensures slot == if taken then None else old(slot)
    {
      if taken {
        slot := None;
      }
    }
  }

  /** _publish_control_result against any behaviour of the consumer: taken(k) says
      whether it takes the result before turn k.  At most the result that was in the
      queue at the start is thrown away, and the new one is in the queue at the end. */
  method PublishControlResult(queue: ResultQueue, response: Response, taken: nat -> bool)
    returns (discarded: Option<Response>)
    modifies queue
    ensures queue.slot == Some(response)
    ensures discarded.Some? ==> discarded == old(queue.slot)
    ensures old(queue.slot) == None ==> discarded == None
  {
    discarded := None;
    var turn := 0;
    while true
      invariant queue.slot == None || queue.slot == old(queue.slot)
      invariant discarded.Some? ==> queue.slot == None && discarded == old(queue.slot)
      decreases queue.slot.Some?
    {
      queue.MaybeTaken(taken(turn));
      if queue.slot == None {
        queue.slot := Some(response);
        return;
      }
      queue.MaybeTaken(taken(turn + 1));
      if queue.slot.Some? {
        discarded := queue.slot;
        queue.slot := None;
      }
      turn := turn + 2;
    }
  }

  /** What arrives on the result queue: a response or something without correlation. */
  datatype Item = Reply(response: Response) | Legacy

  datatype Arrival = Arrival(item: Item, at: nat)

  predicate Matches(a: Arrival, id: nat) {
    a.item.Reply? && a.item.response.id == id
  }

  ghost predicate Chronological(inbox: seq<Arrival>) {
    forall i, j :: 0 <= i < j < |inbox| ==> inbox[i].at <= inbox[j].at
  }

  /** Position of the first response with the id, or the length when there is none. */
  function FirstMatch(inbox: seq<Arrival>, id: nat): (k: nat)
    ensures k <= |inbox| && (k < |inbox| ==> Matches(inbox[k], id))
    ensures forall j :: 0 <= j < k ==> !Matches(inbox[j], id)
    decreases |inbox|
  {
    if inbox == [] || Matches(inbox[0], id) then 0 else 1 + FirstMatch(inbox[1..], id)
  }

  /** The get that waits for item k still yields it: it arrives before the deadline, or, if
      the race at the deadline itself goes that way, at the deadline with nothing before it
      at that very moment. */
  predicate Yields(inbox: seq<Arrival>, k: nat, deadline: nat, atDeadline: bool)
    requires k < |inbox|
  {
    inbox[k].at < deadline || (atDeadline && inbox[k].at == deadline && (k == 0 || inbox[k - 1].at < deadline))
  }

  /** _wait_for_matching_control_result: the first response with the right id, if the queue
      yields it in time; everything before it is discarded. */
  method WaitForMatchingControlResult(inbox: seq<Arrival>, id: nat, now: nat, timeout: nat, atDeadline: bool)
    returns (result: Option<ControlResult>)
    requires Chronological(inbox) && timeout > 0
    ensures var k := FirstMatch(inbox, id);
            result == if k < |inbox| && Yields(inbox, k, now + timeout, atDeadline)
                      then Some(inbox[k].item.response.result) else None
  {
    var deadline := now + timeout;
    var clock := now;
    var k := 0;
    while clock < deadline && k < |inbox| && (inbox[k].at < deadline || (atDeadline && inbox[k].at == deadline))
      invariant 0 <= k <= |inbox|
      invariant forall j :: 0 <= j < k ==> !Matches(inbox[j], id)
      invariant clock < deadline ==> forall j :: 0 <= j < k ==> inbox[j].at < deadline
      invariant clock >= deadline ==> k > 0 && inbox[k - 1].at >= deadline
      decreases |inbox| - k
    {
      clock := Max(clock, inbox[k].at);
      match inbox[k].item {
        case Legacy =>
        case Reply(response) =>
          if response.id == id {
            assert Matches(inbox[k], id) && FirstMatch(inbox, id) == k;
            return Some(response.result);
          }
      }
      k := k + 1;
    }
    result := None;
  }
}
