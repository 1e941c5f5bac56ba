/** The fan actuation stack as the program has it: five objects, each updating its own
    fields, with two message queues between the proxy and the worker process.  Every
    method is proved against the value function of the same step, so the safety results
    for runs of values are results about these objects. */
module FanObjects {
  import opened Common
  import opened FanStack
  import opened FanSafety

  /** The DAC on its bus, and the fates of what is still to come. */
  class Board {
    var dac: Dac
    var fates: seq<Fate>
    ghost var journal: seq<Entry>

    ghost function View(): Bench
      reads this
    {
      Bench(dac, fates, journal)
    }

    constructor (dac: Dac, fates: seq<Fate>)
      ensures View() == Bench(dac, fates, [])
    {
      this.dac, this.fates, journal := dac, fates, [];
    }

    method Next() returns (f: Fate)
      modifies this
      ensures f == NextFate(old(View())) && View() == Later(old(View()))
    {
      f := if fates == [] then Fine else fates[0];
      fates := if fates == [] then [] else fates[1..];
    }

    method WriteWordData(register: Register, word: int, ghost cause: Cause) returns (r: Reply)
      modifies this
      ensures (View(), r) == WriteWord(old(View()), register, word, cause)
    {
      var f := Next();
      if f.Fine? || f.landed {
        dac := Store(dac, register, word);
        journal := journal + [Landed(register, word, cause)];
      }
      r := Verdict(f);
    }

    method ReadByte() returns (r: Reply)
      modifies this
      ensures (View(), r) == Probe(old(View()))
    {
      var f := Next();
      r := Verdict(f);
    }

    ghost method Log(e: Entry)
      modifies this
      ensures View() == Note(old(View()), e)
    {
      journal := journal + [e];
    }
  }

  class Gp8403 {
    const board: Board

    constructor (board: Board)
      ensures this.board == board
    {
      this.board := board;
    }

    method ConfigureOutputRange(ghost cause: Cause) returns (r: Reply)
      modifies board
      ensures (board.View(), r) == WriteWord(old(board.View()), Range, RANGE_10V, cause)
    {
      r := board.WriteWordData(Range, RANGE_10V, cause);
    }

    method Set(channel: Register, volts: real, ghost cause: Cause) returns (r: Reply)
      modifies board
      ensures (board.View(), r) == SetVoltage(old(board.View()), channel, volts, cause)
    {
      if !InRange(volts) {
        return Refused;
      }
      r := board.WriteWordData(channel, VoltageToWord(volts), cause);
    }

    method SetBoth(supply: real, extract: real, ghost cause: Cause) returns (r: Reply)
      modifies board
      ensures (board.View(), r) == SetBothChannels(old(board.View()), supply, extract, cause)
    {
      r := Set(Supply, supply, cause);
      if r.Ack? {
        r := Set(Extract, extract, cause);
      }
    }

    method Zero(ghost cause: Cause) returns (r: Reply)
      modifies board
      ensures (board.View(), r) == ZeroAll(old(board.View()), cause)
    {
      r := SetBoth(0.0, 0.0, cause);
    }
  }

  class Dfr0971Actuator {
    const dac: Gp8403
    var ready: bool

    constructor (board: Board)
      ensures !ready && fresh(dac) && dac.board == board
    {
      dac := new Gp8403(board);
      ready := false;
    }

    method Start() returns (r: Reply)
      modifies this, dac.board
      ensures (dac.board.View(), r) == StartDac(old(dac.board.View())) && ready == r.Ack?
    {
      ready := false;
      r := dac.board.ReadByte();
      if r.Ack? {
        r := dac.ConfigureOutputRange(Starting);
        if r.Ack? {
          r := dac.Zero(Starting);
          ready := r.Ack?;
        }
      }
    }

    /** One command of the worker's loop: apply, stop_all, health_check or recover. */
    method Perform(command: Command) returns (r: Reply)
      modifies this, dac.board
      ensures (dac.board.View(), ready, r) == Execute(old(dac.board.View()), old(ready), command)
    {
      match command {
        case DoApply(supply, extract) =>
          if !ready {
            return Refused;
          }
          r := dac.SetBoth(supply, extract, Applying);
          if !r.Ack? {
            ready := false;
          }
        case DoStop =>
          if !ready {
            return Ack;
          }
          r := dac.Zero(Stopping);
          if !r.Ack? {
            ready := false;
          }
        case DoHealth =>
          r := dac.board.ReadByte();
        case DoRecover =>
          r := Start();
      }
    }
  }

  // ----- the worker process and its queues

  datatype Message = Message(id: nat, command: Command)

  datatype Response = Response(id: nat, ok: bool, hardwareReady: bool)

  const STARTUP := 0

  class Channel {
    var commands: seq<Message>
    var responses: seq<Response>

    constructor ()
      ensures commands == [] && responses == []
    {
      commands, responses := [], [];
    }
  }

  class HardwareWorker {
    const actuator: Dfr0971Actuator
    const channel: Channel
    var alive: bool

    constructor (board: Board, channel: Channel)
      ensures alive && fresh(actuator) && fresh(actuator.dac) && actuator.dac.board == board
      ensures this.channel == channel
    {
      actuator := new Dfr0971Actuator(board);
      this.channel, alive := channel, true;
    }

    /** Puts a response on the queue, unless it comes too late or the process dies first. */
    method Post(id: nat, r: Reply, ready: bool) returns (ghost answer: Reply)
      requires alive
      modifies this, channel, actuator.dac.board
      ensures (actuator.dac.board.View(), answer) == Deliver(old(actuator.dac.board.View()), r)
      ensures alive == !answer.Silent? && channel.commands == old(channel.commands)
      ensures channel.responses == old(channel.responses) +
              if answer.Silent? then [] else [Response(id, answer.Ack?, ready)]
    {
      answer := r;
      if r.Silent? {
        alive := false;
      } else {
        var f := actuator.dac.board.Next();
        if f.Fine? {
          channel.responses := channel.responses + [Response(id, r.Ack?, ready)];
        } else {
          alive := false;
          answer := Silent;
        }
      }
    }

    /** Start-up reports ok even when the DAC did not start. */
    method Startup()
      requires alive && !actuator.ready
      modifies this, channel, actuator, actuator.dac.board
      ensures var (b1, r) := StartDac(old(actuator.dac.board.View()));
              var (b2, answer) := Deliver(b1, r);
              && actuator.dac.board.View() == b2 && alive == !answer.Silent? && actuator.ready == r.Ack?
              && channel.commands == old(channel.commands)
              && channel.responses == old(channel.responses) +
                 if answer.Silent? then [] else [Response(STARTUP, true, r.Ack?)]
    {
      var r := actuator.Start();
      var ready := actuator.ready;
      var okReply := if r.Refused? then Ack else r;
      var _ := Post(STARTUP, okReply, ready);
    }

    /** One turn of the command loop. */
    method Serve()
      requires alive && |channel.commands| > 0
      modifies this, channel, actuator, actuator.dac.board
      ensures var request := old(channel.commands)[0];
              var (b1, ready, r) := Execute(old(actuator.dac.board.View()), old(actuator.ready), request.command);
              var (b2, answer) := Deliver(b1, r);
              && actuator.dac.board.View() == b2 && alive == !answer.Silent? && actuator.ready == ready
              && channel.commands == old(channel.commands)[1..]
              && channel.responses == old(channel.responses) +
                 if answer.Silent? then [] else [Response(request.id, answer.Ack?, ready)]
    {
      var request := channel.commands[0];
      channel.commands := channel.commands[1..];
      var r := actuator.Perform(request.command);
      var _ := Post(request.id, r, actuator.ready);
    }
  }

  // ----- the proxy

  class ProcessIsolatedActuator {
    const board: Board
    var worker: HardwareWorker?
    var ready: bool
    var lastId: nat

    ghost function Parts(): set<object>
      reads this
    {
      {this, board} + if worker == null then {} else {worker, worker.actuator, worker.channel}
    }

    /** Between requests the queues of a living worker are empty. */
    ghost predicate Valid()
      reads this, Parts()
    {
      worker != null ==>
        && worker.actuator.dac.board == board
        && (worker.alive ==> worker.channel.commands == [] && worker.channel.responses == [])
    }

    ghost function Process(): Worker
      reads this, Parts()
    {
      if worker == null || !worker.alive then Absent else Running(worker.actuator.ready)
    }

    ghost function View(): Rig
      reads this, Parts()
    {
      Rig(board.View(), Process(), ready)
    }

    constructor (board: Board)
      ensures Valid() && this.board == board && View() == Rig(board.View(), Absent, false)
      ensures fresh(Parts() - {board})
    {
      this.board, worker, ready, lastId := board, null, false, STARTUP;
    }

    method IsAlive() returns (alive: bool)
      requires Valid()
      modifies Parts()
      ensures Valid() && Parts() == old(Parts()) && (View(), alive) == CheckAlive(old(View()))
      ensures alive ==> worker != null && worker.alive
    {
      alive := worker != null && worker.alive;
      if alive {
        var f := board.Next();
        if !f.Fine? {
          worker.alive := false;
          alive := false;
        }
      }
    }

    method Ready() returns (r: bool)
      requires Valid()
      modifies Parts()
      ensures Valid() && Parts() == old(Parts()) && (View(), r) == IsReady(old(View()))
    {
      if !ready {
        return false;
      }
      r := IsAlive();
    }

    method TerminateWorker()
      requires Valid()
      modifies this
      ensures Valid() && worker == null && !ready && View() == Rig(old(board.View()), Absent, false)
    {
      ready := false;
      worker := null;
    }

    /** New queues, a new process, and the wait for its start-up message. */
    method Launch() returns (ok: bool)
      requires Valid()
      modifies Parts()
      ensures Valid() && (View(), ok) == StartWorker(old(View()))
      ensures fresh(Parts() - old(Parts())) && (ok ==> worker != null && worker.alive)
    {
      hide StartDac;
      var f := board.Next();
      if !f.Fine? {
        TerminateWorker();
        return false;
      }
      var channel := new Channel();
      var process := new HardwareWorker(board, channel);
      process.actuator.ready := false;
      process.Startup();
      worker := process;
      if channel.responses == [] || channel.responses[0].id != STARTUP || !channel.responses[0].ok {
        TerminateWorker();
        return false;
      }
      ready := channel.responses[0].hardwareReady;
      channel.responses := channel.responses[1..];
      ok := true;
    }

    /** Sends a command to the running worker and waits for the answer with its id. */
    method Exchange(command: Command) returns (done: bool)
      requires Valid() && worker != null && worker.alive
      modifies Parts()
      ensures Valid() && (View(), done) == Ask(old(View()), command)
      ensures Parts() <= old(Parts())
    {
      lastId := lastId + 1;
      worker.channel.commands := worker.channel.commands + [Message(lastId, command)];
      worker.Serve();
      if worker.channel.responses == [] || worker.channel.responses[0].id != lastId {
        TerminateWorker();
        return false;
      }
      var response := worker.channel.responses[0];
      worker.channel.responses := worker.channel.responses[1..];
      ready := response.ok;
      done := response.ok;
    }

    method Send(command: Command) returns (done: bool)
      requires Valid()
      modifies Parts()
      ensures Valid() && (View(), done) == Request(old(View()), command)
      ensures fresh(Parts() - old(Parts()))
    {
      hide Ask, StartWorker, CheckAlive;
      var alive := IsAlive();
      if !alive {
        ready := false;
        var started := Launch();
        if !started {
          return false;
        }
        if command != DoRecover {
          ready := false;
          return false;
        }
      }
      done := Exchange(command);
    }
  }

  // ----- the service

  /** What every state of the service satisfies: the invariant, or the state left by a
      worker that died during construction. */
  ghost predicate Sane(s: System) {
    Coherent(s) || BirthRace(s)
  }

  lemma BirthIsSane(g: Rig, policy: Policy, threshold: nat)
    requires threshold >= 1
    ensures FreshRig(g) ==> Sane(Construct(g, policy, threshold))
  {
    hide FreshRig, Coherent, BirthRace, Construct;
    if FreshRig(g) { ConstructIsCoherent(g, policy, threshold); }
  }

  lemma ManualIsSane(s: System, supply: real, extract: real)
    ensures Coherent(s) ==> Coherent(SetManual(s, supply, extract).0)
    ensures Sane(s) ==> Sane(SetManual(s, supply, extract).0)
  {
    hide Coherent, BirthRace, SetManual;
    if Coherent(s) { SetManualKeepsClaims(s, supply, extract); }
    if BirthRace(s) { BirthRaceEnds(s, OpSetManual(supply, extract)); }
  }

  lemma StopIsCoherent(s: System)
    ensures Sane(s) ==> Coherent(Stop(s).0)
  {
    hide Coherent, BirthRace, Stop;
    if Sane(s) { StopKeepsClaims(s); }
  }

  lemma HealthCheckIsCoherent(s: System)
    ensures Sane(s) ==> Coherent(HealthCheck(s).0)
  {
    hide Coherent, BirthRace, HealthCheck;
    if Sane(s) { HealthCheckKeepsClaims(s); }
  }

  lemma AnswersTell(s: System, op: Operation)
    ensures var (after, outcome) := Operate(s, op);
            Sane(s) ==>
              (op.OpHealthCheck? || op.OpState? ==> outcome.Reported?) &&
              (outcome.Reported? ==> Tells(after, outcome.state))
  {
    hide Coherent, BirthRace, Operate, Tells;
    if Sane(s) { AnswerTells(s, op); }
  }

  class VentilationService {
    const actuator: ProcessIsolatedActuator
    const policy: Policy
    const threshold: nat
    var setpoints: Setpoints
    var mode: Mode
    var outputStateKnown: bool
    var failures: nat
    var recoveryRequired: bool
    var alarm: Option<nat>

    ghost function Parts(): set<object>
      reads this, actuator
    {
      {this} + actuator.Parts()
    }

    ghost predicate Valid()
      reads this, actuator, actuator.Parts()
    {
      actuator.Valid()
    }

    ghost function View(): System
      reads this, actuator, actuator.Parts()
    {
      System(actuator.View(),
             Service(policy, threshold, setpoints, mode, outputStateKnown, failures, recoveryRequired, alarm))
    }

    constructor (actuator: ProcessIsolatedActuator, policy: Policy, threshold: nat)
      requires actuator.Valid() && threshold >= 1
      modifies actuator.Parts()
      ensures Valid() && View() == Construct(old(actuator.View()), policy, threshold)
      ensures FreshRig(old(actuator.View())) ==> Sane(View())
      ensures this.actuator == actuator && actuator.Parts() == old(actuator.Parts())
    {
      hide FreshRig, Sane, Construct;
      BirthIsSane(actuator.View(), policy, threshold);
      this.actuator, this.policy, this.threshold := actuator, policy, threshold;
      setpoints, mode, failures, alarm := STOPPED, STOP, 0, None;
      outputStateKnown, recoveryRequired := false, false;
      new;
      ReadHardware();
    }

    method ThreeReads() returns (first: bool, second: bool, third: bool)
      requires Valid()
      modifies actuator.Parts()
      ensures Valid() && Parts() == old(Parts())
      ensures var (g1, r1) := IsReady(old(actuator.View()));
              var (g2, r2) := IsReady(g1);
              (actuator.View(), first, second, third) == (IsReady(g2).0, r1, r2, IsReady(g2).1)
    {
      hide IsReady;
      first := actuator.Ready();
      second := actuator.Ready();
      third := actuator.Ready();
    }

    method ReadHardware()
      requires Valid() && setpoints == STOPPED && mode == STOP && failures == 0 && alarm == None
      modifies Parts()
      ensures Valid() && View() == Construct(old(actuator.View()), policy, threshold)
      ensures Parts() == old(Parts())
    {
      hide IsReady;
      var first, second, third := ThreeReads();
      ghost var g := actuator.View();
      actuator.board.Log(Began(second));
      outputStateKnown, recoveryRequired := first, !second;
      if !third {
        failures, alarm, mode := threshold, Some(threshold), FAULT;
      }
      assert actuator.View() == g.(bench := Note(g.bench, Began(second)));
    }

    method State() returns (state: CoreState)
      requires Valid()
      modifies Parts()
      ensures Valid() && Parts() == old(Parts()) && (View(), state) == Report(old(View()))
      ensures Sane(old(View())) ==> Tells(View(), state)
    {
      ghost var was := View();
      if Sane(was) { ReportTells(was); }
      hide Sane, Tells, IsReady;
      var ready := actuator.Ready();
      state := CoreState(mode, setpoints, ready && !recoveryRequired, outputStateKnown, failures, alarm);
    }

    method RecordHardwareFailure(immediate: bool)
      requires Valid()
      modifies this, actuator.board
      ensures Valid() && View() == RecordFailure(old(View()), immediate)
    {
      failures := failures + 1;
      outputStateKnown := false;
      recoveryRequired := true;
      if immediate || failures >= threshold {
        alarm := Some(failures);
        mode := FAULT;
      }
      actuator.board.Log(FailureRecorded);
    }

    method CompleteSafeRecovery()
      requires Valid()
      modifies this, actuator.board
      ensures Valid() && View() == CompleteRecovery(old(View()))
    {
      setpoints := STOPPED;
      mode := STOP;
      outputStateKnown := true;
      failures := 0;
      recoveryRequired := false;
      alarm := None;
      actuator.board.Log(RecoveryDone);
    }

    /** The guard of fan commands. */
    method OperationalHardware() returns (ok: bool)
      requires Valid()
      modifies Parts()
      ensures Valid() && Parts() == old(Parts()) && (View(), ok) == RequireOperational(old(View()))
    {
      hide IsReady;
      if recoveryRequired {
        return false;
      }
      var ready := actuator.Ready();
      ok := ready && alarm.None?;
    }

    method ApplyManual(supply: real, extract: real) returns (r: Outcome)
      requires Valid()
      modifies Parts()
      ensures Valid() && (View(), r) == SetManual(old(View()), supply, extract)
      ensures Coherent(old(View())) ==> Coherent(View())
      ensures Sane(old(View())) ==> Sane(View())
      ensures Sane(old(View())) && r.Reported? ==> Tells(View(), r.state)
      ensures fresh(Parts() - old(Parts()))
    {
      hide ApplySetpoints, RequireOperational, Sane, Coherent, Tells;
      ManualIsSane(View(), supply, extract);
      AnswersTell(View(), OpSetManual(supply, extract));
      if !AcceptableVoltage(policy, supply) || !AcceptableVoltage(policy, extract) {
        return BadSetpoint;
      }
      var operational := OperationalHardware();
      if !operational {
        return HardwareFaultActive;
      }
      r := ApplyTo(Setpoints(supply, extract));
    }

    method ApplyTo(sp: Setpoints) returns (r: Outcome)
      requires Valid()
      modifies Parts()
      ensures Valid() && (View(), r) == ApplySetpoints(old(View()), sp)
      ensures fresh(Parts() - old(Parts()))
    {
      hide Request, IsReady;
      var done := actuator.Send(DoApply(sp.supply, sp.extract));
      if !done {
        RecordHardwareFailure(true);
        return CommandFailed;
      }
      setpoints := sp;
      mode := if sp == STOPPED then STOP else MANUAL;
      outputStateKnown := true;
      var state := State();
      r := Reported(state);
    }

    /** recover() when it is needed, otherwise the given command. */
    method RecoverOrSend(command: Command) returns (operational: bool, done: bool)
      requires Valid()
      modifies Parts()
      ensures Valid() && (View(), operational, done) == RecoverOr(old(View()), command)
      ensures fresh(Parts() - old(Parts()))
    {
      hide Request, IsReady;
      operational := false;
      if !recoveryRequired {
        operational := actuator.Ready();
      }
      done := actuator.Send(if operational then command else DoRecover);
    }

    method StopFans() returns (r: Outcome)
      requires Valid()
      modifies Parts()
      ensures Valid() && (View(), r) == Stop(old(View()))
      ensures Sane(old(View())) ==> Coherent(View())
      ensures Sane(old(View())) && r.Reported? ==> Tells(View(), r.state)
      ensures fresh(Parts() - old(Parts()))
    {
      hide RecoverOr, IsReady, Sane, Coherent, Tells;
      StopIsCoherent(View());
      AnswersTell(View(), OpStop);
      var _, done := RecoverOrSend(DoStop);
      if !done {
        RecordHardwareFailure(true);
        return CommandFailed;
      }
      CompleteSafeRecovery();
      var state := State();
      r := Reported(state);
    }

    method Supervise() returns (r: Outcome)
      requires Valid()
      modifies Parts()
      ensures Valid() && (View(), r) == HealthCheck(old(View()))
      ensures Sane(old(View())) ==> Coherent(View()) && r.Reported? && Tells(View(), r.state)
      ensures fresh(Parts() - old(Parts()))
    {
      hide RecoverOr, IsReady, Sane, Coherent, Tells;
      HealthCheckIsCoherent(View());
      AnswersTell(View(), OpHealthCheck);
      var operational, done := RecoverOrSend(DoHealth);
      if !done {
        RecordHardwareFailure(false);
      } else if !operational {
        CompleteSafeRecovery();
      } else {
        failures := 0;
        outputStateKnown := true;
      }
      var state := State();
      r := Reported(state);
    }
  }
}
