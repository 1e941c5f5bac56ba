/** Where the results of AERO commands end up, over every run of the protocol between
    ProcessAeroBus and its worker, in src/ventilation_core/infrastructure/aero_bus_worker.py;
    and that no run, however it went, keeps later commands from being answered. */
module AeroResults {
  import opened Common
  import opened AeroControl
  import opened AeroProtocol

  ghost predicate Discarded(s: State, id: nat) {
    exists i: nat :: i < |s.discards| && s.discards[i].id == id
  }

  ghost predicate Queued(s: State, id: nat) {
    s.reply.Some? && s.reply.value.id == id
  }

  ghost predicate AtWorker(s: State, id: nat) {
    s.worker.Publishing? && s.worker.response.id == id
  }

  /** A result is with its caller, thrown away, in the queue or still at the worker, and
      never in two of these places. */
  ghost predicate OnePlace(s: State, id: nat) {
    && !(id in s.answered && Discarded(s, id))
    && !(id in s.answered && Queued(s, id))
    && !(id in s.answered && AtWorker(s, id))
    && !(Discarded(s, id) && Queued(s, id))
    && !(Discarded(s, id) && AtWorker(s, id))
    && !(Queued(s, id) && AtWorker(s, id))
  }

  ghost predicate SomePlace(s: State, id: nat) {
    id in s.answered || Discarded(s, id) || Queued(s, id) || AtWorker(s, id)
  }

  /** Only executed requests have results; nobody waits for one that was returned. */
  ghost predicate Placed(s: State) {
    && (forall id: nat :: OnePlace(s, id))
    && (forall id: nat :: SomePlace(s, id) ==> id in s.executed)
    && (forall id: nat :: id in s.waiting ==> id !in s.answered)
  }

  lemma Appended(ds: seq<Discard>, d: Discard, id: nat)
    ensures (exists i: nat :: i < |ds + [d]| && (ds + [d])[i].id == id) <==>
            (exists i: nat :: i < |ds| && ds[i].id == id) || d.id == id
  {
    var all := ds + [d];
    assert all[|ds|] == d;
    if i: nat :| i < |ds| && ds[i].id == id { assert all[i].id == id; }
    if i: nat :| i < |all| && all[i].id == id && i < |ds| { assert ds[i].id == id; }
  }

  /** What the step does to the discarded results. */
  lemma DiscardsGrow(s: State, step: Step, id: nat)
    ensures var t := Next(s, step);
            Discarded(t, id) <==>
            Discarded(s, id) || (|t.discards| > |s.discards| && s.reply.Some? && s.reply.value.id == id)
  {
    if s.reply.Some? {
      var r := s.reply.value;
      Appended(s.discards, ByCaller(r.id, r.id in s.waiting), id);
      Appended(s.discards, ByWorker(r.id, r.id in s.waiting), id);
      Appended(s.discards, ByRestart(r.id, r.id in s.waiting), id);
    }
  }

  /** From s to t the result of id stays in at most one place, and is only lost by a death. */
  ghost predicate PlaceKept(s: State, t: State, id: nat, death: bool) {
    && OnePlace(t, id) && (SomePlace(t, id) ==> id in t.executed)
    && (id in t.waiting ==> id !in t.answered)
    && (!death && (id in s.executed ==> SomePlace(s, id)) ==> (id in t.executed ==> SomePlace(t, id)))
  }

  lemma CallerKeepsPlace(s: State, step: Step, id: nat)
    requires Correlated(s) && Placed(s) && (step.Submit? || step.Receive? || step.GiveUp?)
    ensures PlaceKept(s, Next(s, step), id, false)
  {
    DiscardsGrow(s, step, id);
    assert OnePlace(s, id) && (SomePlace(s, id) ==> id in s.executed);
    hide Discarded, Placed;
  }

  lemma PutKeepsPlace(s: State, id: nat)
    requires Correlated(s) && Placed(s)
    ensures PlaceKept(s, Next(s, TryPut), id, false)
  {
    DiscardsGrow(s, TryPut, id);
    assert OnePlace(s, id) && (SomePlace(s, id) ==> id in s.executed);
    hide Discarded, Placed;
  }

  lemma DropKeepsPlace(s: State, id: nat)
    requires Correlated(s) && Placed(s)
    ensures PlaceKept(s, Next(s, DropStale), id, false)
  {
    DiscardsGrow(s, DropStale, id);
    assert OnePlace(s, id) && (SomePlace(s, id) ==> id in s.executed);
    hide Discarded, Placed;
  }

  lemma WorkerKeepsPlace(s: State, step: Step, id: nat)
    requires Correlated(s) && Placed(s)
    requires step.Take? || step.Finish? || step.Fail? || step.Die?
    ensures PlaceKept(s, Next(s, step), id, step.Die?)
  {
    DiscardsGrow(s, step, id);
    assert OnePlace(s, id) && (SomePlace(s, id) ==> id in s.executed);
    hide Discarded, Placed;
  }

  lemma RestartKeepsPlace(s: State, id: nat)
    requires Correlated(s) && Placed(s)
    ensures PlaceKept(s, Next(s, Restart), id, false)
  {
    DiscardsGrow(s, Restart, id);
    assert OnePlace(s, id) && (SomePlace(s, id) ==> id in s.executed);
    hide Discarded, Placed;
  }

  /** Nothing but a death loses a result, and a step that takes one out of the queue either
      returns it or logs it as thrown away. */
  lemma NextKeepsPlaces(s: State, step: Step, id: nat)
    requires Correlated(s) && Placed(s)
    ensures PlaceKept(s, Next(s, step), id, step.Die?)
  {
    hide Correlated, Placed, PlaceKept, Next;
    if step.Submit? || step.Receive? || step.GiveUp? {
      CallerKeepsPlace(s, step, id);
    } else if step.TryPut? {
      PutKeepsPlace(s, id);
    } else if step.DropStale? {
      DropKeepsPlace(s, id);
    } else if step.Restart? {
      RestartKeepsPlace(s, id);
    } else {
      WorkerKeepsPlace(s, step, id);
    }
  }

  lemma {:induction false} RunKeepsPlaces(s: State, steps: seq<Step>)
    requires Correlated(s) && Placed(s)
    ensures Placed(Run(s, steps))
    ensures Die !in steps && (forall id: nat :: id in s.executed ==> SomePlace(s, id)) ==>
              forall id: nat :: id in Run(s, steps).executed ==> SomePlace(Run(s, steps), id)
    decreases steps
  {
    if steps != [] {
      assert steps[0] in steps;
      NextKeepsCorrelated(s, steps[0]);
      PlacesStay(s, steps[0]);
      hide *;
      RunKeepsPlaces(Next(s, steps[0]), steps[1..]);
      RunUnfolds(s, steps);
    }
  }

  lemma RunUnfolds(s: State, steps: seq<Step>)
    requires steps != []
    ensures Run(s, steps) == Run(Next(s, steps[0]), steps[1..])
  {
  }

  lemma PlacesStay(s: State, step: Step)
    requires Correlated(s) && Placed(s)
    ensures Placed(Next(s, step))
    ensures step != Die && (forall id: nat :: id in s.executed ==> SomePlace(s, id)) ==>
              forall id: nat :: id in Next(s, step).executed ==> SomePlace(Next(s, step), id)
  {
    var t := Next(s, step);
    forall id: nat ensures PlaceKept(s, t, id, step.Die?) {
      NextKeepsPlaces(s, step, id);
    }
    hide OnePlace, SomePlace, Next, Correlated;
    forall id: nat
      ensures OnePlace(t, id) && (SomePlace(t, id) ==> id in t.executed) && (id in t.waiting ==> id !in t.answered)
    {
      assert PlaceKept(s, t, id, step.Die?);
    }
    if step != Die && (forall id: nat :: id in s.executed ==> SomePlace(s, id)) {
      forall id: nat | id in t.executed ensures SomePlace(t, id) {
        assert PlaceKept(s, t, id, step.Die?);
      }
    }
  }

  /** Over every interleaving, with or without the lock: no result is ever in two places,
      and as long as the worker lives every executed command's result is in one. */
  lemma ResultsAreConserved(exclusive: bool, steps: seq<Step>, id: nat)
    ensures var s := Run(Start(exclusive), steps);
            && OnePlace(s, id)
            && (SomePlace(s, id) ==> id in s.executed)
            && (Die !in steps && id in s.executed ==> SomePlace(s, id))
  {
    RunKeepsPlaces(Start(exclusive), steps);
    hide OnePlace, SomePlace;
  }

  /** Whatever happened before: when the newest caller has given up and the worker has been
      restarted, the next command gets through, alone and answered with its own outcome. */
  lemma NextCommandIsAnswered(steps: seq<Step>, command: Command, outcome: ControlResult)
    ensures var s := Run(Start(true), steps);
            var t := Next(Next(Next(s, GiveUp(if s.nextId == 0 then 0 else s.nextId - 1)), Die), Restart);
            var end := Run(t, [Submit(command), Take, Finish(outcome)] +
                              ([TryPut, DropStale, TryPut] + [Receive(s.nextId)]));
            && t.waiting == {} && t.request.None? && t.reply.None?
            && s.nextId in end.answered && end.answered[s.nextId] == outcome.(command := command)
  {
    var s := Run(Start(true), steps);
    var last := if s.nextId == 0 then 0 else s.nextId - 1;
    RunKeepsCorrelated(Start(true), steps);
    RunKeepsInOrder(Start(true), steps);
    Restored(s, last);
    hide *;
    UndisturbedCommandIsAnswered(Next(Next(Next(s, GiveUp(last)), Die), Restart), command, outcome);
  }

  lemma Restored(s: State, last: nat)
    requires Correlated(s) && InOrder(s) && (s.nextId == 0 || last == s.nextId - 1)
    ensures var t := Next(Next(Next(s, GiveUp(last)), Die), Restart);
            t.waiting == {} && t.request.None? && t.reply.None? && t.worker.Polling? && t.nextId == s.nextId
  {
    var u := Next(s, GiveUp(last));
    assert u.waiting == {};
    hide Correlated, InOrder;
  }
}
