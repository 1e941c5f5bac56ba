/** The fan actuation stack as functions on values: the GP8403 DAC on its I2C bus,
    the DFR0971 actuator, the hardware worker process, the proxy that supervises it,
    and VentilationService on top.

    Every uncertain event takes the next fate of a script: each I2C transaction, each
    check whether the worker is alive, each start and each reply.  A fate may refuse
    a transaction or silence the worker for good, and in both cases the write may or
    may not have reached the register.  A silenced worker stands for a hung process
    (the proxy times out and terminates it) and for one that died; terminate() is
    taken to end the process, and registers keep their value between writes.
 */
module FanStack {
  import opened Common

  // ----- the bench: registers, fates and a journal of what happened

  datatype Fate = Fine | Trouble(landed: bool, silent: bool)

  datatype Register = Range | Supply | Extract

  datatype Dac = Dac(range: int, supply: int, extract: int)

  /** Why a register was written. */
  datatype Cause = Starting | Applying | Stopping

  datatype Entry =
    | Landed(register: Register, word: int, cause: Cause)
    | Began(trusted: bool)
    | FailureRecorded
    | RecoveryDone

  datatype Bench = Bench(dac: Dac, fates: seq<Fate>, journal: seq<Entry>)

  /** How a request ends: done, an exception that is reported, or no answer at all. */
  datatype Reply = Ack | Refused | Silent

  function NextFate(b: Bench): Fate {
    if b.fates == [] then Fine else b.fates[0]
  }

  function Later(b: Bench): Bench {
    if b.fates == [] then b else b.(fates := b.fates[1..])
  }

  function Note(b: Bench, e: Entry): Bench {
    b.(journal := b.journal + [e])
  }

  function Store(dac: Dac, register: Register, word: int): Dac {
    match register
    case Range => dac.(range := word)
    case Supply => dac.(supply := word)
    case Extract => dac.(extract := word)
  }

  function Land(b: Bench, register: Register, word: int, cause: Cause): Bench {
    Note(b.(dac := Store(b.dac, register, word)), Landed(register, word, cause))
  }

  function Verdict(f: Fate): Reply {
    if f.Fine? then Ack else if f.silent then Silent else Refused
  }

  /** One register write. */
  function WriteWord(b: Bench, register: Register, word: int, cause: Cause): (Bench, Reply) {
    var fate := NextFate(b);
    var lands := fate.Fine? || fate.landed;
    (if lands then Land(Later(b), register, word, cause) else Later(b), Verdict(fate))
  }

  function Probe(b: Bench): (Bench, Reply) {
    (Later(b), Verdict(NextFate(b)))
  }

  // ----- GP8403

  const MAX_CODE := 0x0FFF
  const RANGE_10V := 0x0011
  const FULL_SCALE: real := 10.0

  predicate InRange(volts: real) {
    0.0 <= volts <= FULL_SCALE
  }

  /** round(): to the nearest integer, ties to the even one. */
  function RoundHalfEven(x: real): int {
    var below := x.Floor;
    var rest := x - below as real;
    if rest < 0.5 || (rest == 0.5 && below % 2 == 0) then below else below + 1
  }

  function Clamp(code: int): int {
    if code < 0 then 0 else if code > MAX_CODE then MAX_CODE else code
  }

  function VoltageToWord(volts: real): int {
    Clamp(RoundHalfEven(volts / FULL_SCALE * (MAX_CODE as real))) * 16
  }

  /** The output voltage that a register word stands for. */
  function WordToVoltage(word: int): real {
    (word / 16) as real / (MAX_CODE as real) * FULL_SCALE
  }

  lemma RoundIsNearest(x: real)
    ensures -0.5 <= RoundHalfEven(x) as real - x <= 0.5
    ensures x >= 0.0 ==> RoundHalfEven(x) >= 0
    ensures x <= MAX_CODE as real ==> RoundHalfEven(x) <= MAX_CODE
    ensures x - x.Floor as real == 0.5 ==> RoundHalfEven(x) % 2 == 0
  {
  }

  /** The word lies within half a DAC step of the requested voltage. */
  lemma WordWithinHalfStep(volts: real)
    requires InRange(volts)
    ensures var step := FULL_SCALE / (MAX_CODE as real);
            && -step / 2.0 <= WordToVoltage(VoltageToWord(volts)) - volts <= step / 2.0
    ensures 0 <= VoltageToWord(volts) <= MAX_CODE * 16
  {
    var x := volts / FULL_SCALE * (MAX_CODE as real);
    RoundIsNearest(x);
    var code := RoundHalfEven(x);
    assert Clamp(code) == code && (code * 16) / 16 == code;
    assert volts == x * FULL_SCALE / (MAX_CODE as real);
  }

  /** Zero volts and full scale are exact. */
  lemma EndsAreExact()
    ensures VoltageToWord(0.0) == 0 && VoltageToWord(10.0) == 0xFFF0
  {
  }

  function SetVoltage(b: Bench, channel: Register, volts: real, cause: Cause): (Bench, Reply) {
    if !InRange(volts) then (b, Refused) else WriteWord(b, channel, VoltageToWord(volts), cause)
  }

  /** A voltage outside 0 to 10 V is refused before anything is written. */
  lemma VoltageIsChecked(b: Bench, channel: Register, volts: real, cause: Cause)
    ensures SetVoltage(b, channel, volts, cause) == (b, Refused) <==> !(0.0 <= volts <= 10.0)
  {
    hide VoltageToWord;
  }

  /** Two writes that may fail separately. */
  function SetBothChannels(b: Bench, supply: real, extract: real, cause: Cause): (Bench, Reply) {
    var (mid, first) := SetVoltage(b, Supply, supply, cause);
    if !first.Ack? then (mid, first) else SetVoltage(mid, Extract, extract, cause)
  }

  function ZeroAll(b: Bench, cause: Cause): (Bench, Reply) {
    SetBothChannels(b, 0.0, 0.0, cause)
  }

  // ----- DFR0971: the flag is true only after a complete start

  function StartDac(b: Bench): (Bench, Reply) {
    var (b1, r1) := Probe(b);
    if !r1.Ack? then (b1, r1) else
    var (b2, r2) := WriteWord(b1, Range, RANGE_10V, Starting);
    if !r2.Ack? then (b2, r2) else ZeroAll(b2, Starting)
  }

  datatype Command = DoApply(supply: real, extract: real) | DoStop | DoHealth | DoRecover

  /** One command in the worker; the flag is the actuator's own. */
  function Execute(b: Bench, ready: bool, command: Command): (Bench, bool, Reply) {
    match command
    case DoApply(supply, extract) =>
      if !ready then (b, false, Refused)
      else
        var (after, r) := SetBothChannels(b, supply, extract, Applying);
        (after, r.Ack?, r)
    case DoStop =>
      if !ready then (b, false, Ack)
      else
        var (after, r) := ZeroAll(b, Stopping);
        (after, r.Ack?, r)
    case DoHealth =>
      var (after, r) := Probe(b);
      (after, ready, r)
    case DoRecover =>
      var (after, r) := StartDac(b);
      (after, r.Ack?, r)
  }

  // ----- the proxy and its worker process

  datatype Worker = Absent | Running(actuatorReady: bool)

  datatype Rig = Rig(bench: Bench, worker: Worker, ready: bool)

  /** is_alive(): a worker found dead is gone. */
  function CheckAlive(g: Rig): (Rig, bool) {
    if g.worker.Absent? then (g, false)
    else if NextFate(g.bench).Fine? then (g.(bench := Later(g.bench)), true)
    else (g.(bench := Later(g.bench), worker := Absent), false)
  }

  /** The ready property. */
  function IsReady(g: Rig): (Rig, bool) {
    if !g.ready then (g, false) else CheckAlive(g)
  }

  /** A reply that was produced still has to arrive before the timeout. */
  function Deliver(b: Bench, r: Reply): (Bench, Reply) {
    if r.Silent? then (b, r) else (Later(b), if NextFate(b).Fine? then r else Silent)
  }

  /** Starts a worker: opens the bus, starts the DAC, reports.  False is the exception. */
  function StartWorker(g: Rig): (Rig, bool) {
    var opening := NextFate(g.bench);
    if !opening.Fine? then (Rig(Later(g.bench), Absent, false), false)
    else
      var (b1, r) := StartDac(Later(g.bench));
      var (b2, answer) := Deliver(b1, r);
      if answer.Silent? then (Rig(b2, Absent, false), false)
      else (Rig(b2, Running(r.Ack?), r.Ack?), true)
  }

  /** The rest of a request, once a worker is running. */
  function Ask(g: Rig, command: Command): (Rig, bool)
    requires g.worker.Running?
  {
    var (b1, actuatorReady, r) := Execute(g.bench, g.worker.actuatorReady, command);
    var (b2, answer) := Deliver(b1, r);
    match answer
    case Silent => (Rig(b2, Absent, false), false)
    case Refused => (Rig(b2, Running(actuatorReady), false), false)
    case Ack => (Rig(b2, Running(actuatorReady), true), true)
  }

  /** One request of the proxy; false is the exception it raises. */
  function Request(g: Rig, command: Command): (Rig, bool) {
    var (g1, alive) := CheckAlive(g);
    if alive then Ask(g1, command)
    else
      var (g2, started) := StartWorker(g1.(ready := false));
      if !started then (g2, false)
      else if command != DoRecover then (g2.(ready := false), false)
      else Ask(g2, command)
  }

  // ----- the service

  datatype Mode = STOP | MANUAL | FAULT

  datatype Setpoints = Setpoints(supply: real, extract: real)

  const STOPPED: Setpoints := Setpoints(0.0, 0.0)

  datatype Policy = Policy(minimum: real, maximum: real)

  /** The alarm carries the failure count at its last activation. */
  datatype Service = Service(
    policy: Policy, threshold: nat,
    setpoints: Setpoints, mode: Mode, known: bool, failures: nat, recovery: bool, alarm: Option<nat>)

  datatype System = System(rig: Rig, svc: Service)

  datatype CoreState = CoreState(
    mode: Mode, setpoints: Setpoints, hardwareReady: bool, outputStateKnown: bool,
    failures: nat, alarm: Option<nat>)

  datatype Outcome = Reported(state: CoreState) | BadSetpoint | HardwareFaultActive | CommandFailed

  predicate AcceptableVoltage(p: Policy, v: real) {
    v == 0.0 || p.minimum <= v <= p.maximum
  }

  /** state(): asks the proxy once more whether it is ready. */
  function Report(s: System): (System, CoreState) {
    var (g, ready) := IsReady(s.rig);
    (s.(rig := g),
     CoreState(s.svc.mode, s.svc.setpoints, ready && !s.svc.recovery, s.svc.known, s.svc.failures, s.svc.alarm))
  }

  function NoteIn(s: System, e: Entry): System {
    s.(rig := s.rig.(bench := Note(s.rig.bench, e)))
  }

  function RecordFailure(s: System, immediate: bool): System {
    var failures := s.svc.failures + 1;
    var alarmed := immediate || failures >= s.svc.threshold;
    NoteIn(s.(svc := s.svc.(
      failures := failures, known := false, recovery := true,
      alarm := if alarmed then Some(failures) else s.svc.alarm,
      mode := if alarmed then FAULT else s.svc.mode)), FailureRecorded)
  }

  function CompleteRecovery(s: System): System {
    NoteIn(s.(svc := s.svc.(
      setpoints := STOPPED, mode := STOP, known := true, failures := 0, recovery := false, alarm := None)),
      RecoveryDone)
  }

  /** The constructor reads the ready property three times. */
  function Construct(g: Rig, policy: Policy, threshold: nat): System {
    var (g1, first) := IsReady(g);
    var (g2, second) := IsReady(g1);
    var (g3, third) := IsReady(g2);
    var svc := Service(policy, threshold, STOPPED, if third then STOP else FAULT, first,
                       if third then 0 else threshold, !second, if third then None else Some(threshold));
    NoteIn(System(g3, svc), Began(second))
  }

  function RequireOperational(s: System): (System, bool) {
    if s.svc.recovery then (s, false)
    else
      var (g, ready) := IsReady(s.rig);
      (s.(rig := g), ready && s.svc.alarm.None?)
  }

  /** The guarded part: apply, and on success the new set points and mode. */
  function ApplySetpoints(s: System, sp: Setpoints): (System, Outcome) {
    var (g, done) := Request(s.rig, DoApply(sp.supply, sp.extract));
    if !done then (RecordFailure(s.(rig := g), true), CommandFailed)
    else
      var (end, state) := Report(System(g, s.svc.(
        setpoints := sp, mode := if sp == STOPPED then STOP else MANUAL, known := true)));
      (end, Reported(state))
  }

  function SetManual(s: System, supply: real, extract: real): (System, Outcome) {
    if !AcceptableVoltage(s.svc.policy, supply) || !AcceptableVoltage(s.svc.policy, extract) then (s, BadSetpoint)
    else
      var (checked, operational) := RequireOperational(s);
      if !operational then (checked, HardwareFaultActive)
      else ApplySetpoints(checked, Setpoints(supply, extract))
  }

  /** recover() when it is needed, otherwise the given command. */
  function RecoverOr(s: System, command: Command): (System, bool, bool) {
    var (g, ready) := if s.svc.recovery then (s.rig, false) else IsReady(s.rig);
    var (g', done) := Request(g, if ready then command else DoRecover);
    (s.(rig := g'), ready, done)
  }

  function Stop(s: System): (System, Outcome) {
    var (mid, _, done) := RecoverOr(s, DoStop);
    if !done then (RecordFailure(mid, true), CommandFailed)
    else
      var (end, state) := Report(CompleteRecovery(mid));
      (end, Reported(state))
  }

  function HealthCheck(s: System): (System, Outcome) {
    var (mid, operational, done) := RecoverOr(s, DoHealth);
    var after :=
      if !done then RecordFailure(mid, false)
      else if !operational then CompleteRecovery(mid)
      else mid.(svc := mid.svc.(failures := 0, known := true));
    var (end, state) := Report(after);
    (end, Reported(state))
  }

  datatype Operation = OpSetManual(supply: real, extract: real) | OpStop | OpHealthCheck | OpState

  function Operate(s: System, op: Operation): (System, Outcome) {
    match op
    case OpSetManual(supply, extract) => SetManual(s, supply, extract)
    case OpStop => Stop(s)
    case OpHealthCheck => HealthCheck(s)
    case OpState => var (after, state) := Report(s); (after, Reported(state))
  }

  function Run(s: System, ops: seq<Operation>): System
    decreases ops
  {
    if ops == [] then s else Run(Operate(s, ops[0]).0, ops[1..])
  }
}
