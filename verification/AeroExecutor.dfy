/** The guarded AERO write of
    src/ventilation_core/infrastructure/aero_control_executor.py: read the control
    register, write the target, read it back, wait until the fan power changes, and put
    the previous value back when any of that fails.

    Every exchange on the bus takes the next fate of a script; an exhausted script means
    a silent device.  Times are in milliseconds. */
module AeroExecutor {
  import opened Common
  import opened AeroControl

  const FAN_1_REGISTER := 2033
  const FAN_2_REGISTER := 2034
  const EXECUTION_TIMEOUT := 60000
  const POLL_INTERVAL := 2000

  /** ModbusError and ValueError are caught on the write path, anything else is not. */
  datatype Trouble = Expected | Unexpected

  /** fan: the percentage that a fan-power register shows at that moment.
      lands: a write that is reported as failed may have reached the register. */
  datatype Fate =
    | Fine(wait: nat, fan: int)
    | Fault(wait: nat, lands: bool, trouble: Trouble)

  datatype Bus = Bus(registers: map<int, int>, clock: nat, fates: seq<Fate>)

  function NextFate(b: Bus): Fate {
    if b.fates == [] then Fault(0, false, Expected) else b.fates[0]
  }

  function Later(b: Bus): Bus {
    b.(clock := b.clock + NextFate(b).wait, fates := if b.fates == [] then [] else b.fates[1..])
  }

  function Stored(registers: map<int, int>, address: int, value: int): map<int, int> {
    if address in registers then registers[address := value] else registers
  }

  function ReadOne(b: Bus, address: int): (Bus, Result<int, Trouble>) {
    (Later(b),
     match NextFate(b)
     case Fault(_, _, trouble) => Failure(trouble)
     case Fine(_, fan) =>
       if address == FAN_1_REGISTER || address == FAN_2_REGISTER then Success(fan)
       else if address in b.registers then Success(b.registers[address])
       else Failure(Expected))
  }

  function WriteOne(b: Bus, address: int, value: int): (Bus, Result<int, Trouble>) {
    match NextFate(b)
    case Fault(_, lands, trouble) =>
      (if lands then Later(b).(registers := Stored(b.registers, address, value)) else Later(b), Failure(trouble))
    case Fine(_, _) =>
      (Later(b).(registers := Stored(b.registers, address, value)),
       if address in b.registers then Success(value) else Failure(Expected))
  }

  /** AeroFanPower accepts percentages only. */
  function Power(fan1: int, fan2: int): Result<FanPower, Trouble> {
    if 0 <= fan1 <= 100 && 0 <= fan2 <= 100 then Success(FanPower(fan1, fan2)) else Failure(Expected)
  }

  function ReadFanPower(b: Bus): (Bus, Result<FanPower, Trouble>) {
    var (b1, fan1) := ReadOne(b, FAN_1_REGISTER);
    match fan1
    case Failure(e) => (b1, Failure(e))
    case Success(p1) =>
      var (b2, fan2) := ReadOne(b1, FAN_2_REGISTER);
      match fan2
      case Failure(e) => (b2, Failure(e))
      case Success(p2) => (b2, Power(p1, p2))
  }

  predicate AllowedPrevious(command: Command, value: int) {
    RawCommand(command.kind, value).Valid()
  }

  function Restore(b: Bus, address: int, previous: int): (Bus, Result<bool, Trouble>) {
    var (b1, written) := WriteOne(b, address, previous);
    match written
    case Failure(e) => (b1, if e.Expected? then Success(false) else Failure(e))
    case Success(_) =>
      var (b2, readback) := ReadOne(b1, address);
      (b2,
       match readback
       case Failure(e) => if e.Expected? then Success(false) else Failure(e)
       case Success(value) => Success(value == previous))
  }

  datatype Outcome = Returned(result: ControlResult) | Raised

  // ----- the four results

  function Refused(command: Command, previous: int): ControlResult {
    ControlResult(command, FAILED, previous, None, None, None, false, false)
  }

  function AlreadyThere(command: Command, baseline: FanPower): ControlResult {
    ControlResult(command, SUCCEEDED, command.value, Some(command.value), Some(baseline), Some(baseline), true, true)
  }

  function NotWritten(command: Command, previous: int, baseline: FanPower, recovered: bool): ControlResult {
    ControlResult(command, FAILED, previous, None, Some(baseline), None, recovered, false)
  }

  function Watched(command: Command, previous: int, baseline: FanPower, observed: FanPower, recovered: bool):
      ControlResult {
    ControlResult(command, if observed != baseline then SUCCEEDED else FAILED, previous, Some(command.value),
                  Some(baseline), Some(observed), recovered, observed != baseline)
  }

  // ----- the function in three parts

  /** Up to the readback of the new value.  Written: it is in force and the wait begins. */
  datatype Attempt = Settled(outcome: Outcome) | Written(previous: int, baseline: FanPower)

  function Attempted(b: Bus, command: Command): (Bus, Attempt) {
    var (b1, read) := ReadOne(b, command.Register());
    match read
    case Failure(_) => (b1, Settled(Raised))
    case Success(previous) =>
      if !AllowedPrevious(command, previous) then (b1, Settled(Returned(Refused(command, previous))))
      else
        var (b2, power) := ReadFanPower(b1);
        match power
        case Failure(_) => (b2, Settled(Raised))
        case Success(baseline) =>
          if previous == command.value then (b2, Settled(Returned(AlreadyThere(command, baseline))))
          else Changed(b2, command, previous, baseline)
  }

  function Changed(b: Bus, command: Command, previous: int, baseline: FanPower): (Bus, Attempt) {
    var (b1, written) := WriteOne(b, command.Register(), command.value);
    match written
    case Failure(e) => GivenUp(b1, command, previous, baseline, e)
    case Success(_) =>
      var (b2, readback) := ReadOne(b1, command.Register());
      match readback
      case Failure(e) => GivenUp(b2, command, previous, baseline, e)
      case Success(value) =>
        if value == command.value then (b2, Written(previous, baseline))
        else GivenUp(b2, command, previous, baseline, Expected)
  }

  function GivenUp(b: Bus, command: Command, previous: int, baseline: FanPower, e: Trouble): (Bus, Attempt) {
    if e.Unexpected? then (b, Settled(Raised))
    else
      var (b1, recovered) := Restore(b, command.Register(), previous);
      (b1,
       match recovered
       case Failure(_) => Settled(Raised)
       case Success(yes) => Settled(Returned(NotWritten(command, previous, baseline, yes))))
  }

  /** The wait for a change of fan power: the last power seen, or the failed reading. */
  function Watch(b: Bus, baseline: FanPower, deadline: int): (Bus, Result<FanPower, Trouble>)
    decreases deadline - b.clock
  {
    if b.clock >= deadline then (b, Success(baseline))
    else
      var (b1, power) := ReadFanPower(b.(clock := b.clock + POLL_INTERVAL));
      if power.Failure? || power.value != baseline then (b1, power)
      else
        ReadTakesTime(b.(clock := b.clock + POLL_INTERVAL));
        Watch(b1, baseline, deadline)
  }

  lemma ReadTakesTime(b: Bus)
    ensures ReadFanPower(b).0.clock >= b.clock
  {
  }

  function Confirmed(b: Bus, command: Command, previous: int, baseline: FanPower): (Bus, Outcome) {
    var (b1, seen) := Watch(b, baseline, b.clock + EXECUTION_TIMEOUT);
    match seen
    case Failure(_) => (b1, Raised)
    case Success(observed) =>
      if observed != baseline then (b1, Returned(Watched(command, previous, baseline, observed, false)))
      else
        var (b2, recovered) := Restore(b1, command.Register(), previous);
        (b2,
         match recovered
         case Failure(_) => Raised
         case Success(yes) => Returned(Watched(command, previous, baseline, observed, yes)))
  }

  function ExecuteControlChange(b: Bus, command: Command): (Bus, Outcome) {
    Concluded(Attempted(b, command), command)
  }

  function Concluded(attempted: (Bus, Attempt), command: Command): (Bus, Outcome) {
    match attempted.1
    case Settled(outcome) => (attempted.0, outcome)
    case Written(previous, baseline) => Confirmed(attempted.0, command, previous, baseline)
  }

  // ----- what the parts do to the registers

  /** Only this register may differ, and it holds one of the two values. */
  ghost predicate Within(before: map<int, int>, after: map<int, int>, address: int, values: set<int>) {
    && after.Keys == before.Keys
    && (forall a :: a in before && a != address ==> after[a] == before[a])
    && (address in after ==> after[address] in values)
  }

  lemma WithinIsUpdate(before: map<int, int>, after: map<int, int>, address: int, values: set<int>)
    requires Within(before, after, address, values) && address in before
    ensures after == before[address := after[address]]
  {
    forall a | a in after ensures a in before && after[a] == before[address := after[address]][a] {}
    forall a | a in before ensures a in after {}
  }

  lemma ReadingChangesNothing(b: Bus)
    ensures ReadFanPower(b).0.registers == b.registers
  {
  }

  lemma {:induction false} WatchingChangesNothing(b: Bus, baseline: FanPower, deadline: int)
    ensures Watch(b, baseline, deadline).0.registers == b.registers
    decreases deadline - b.clock
  {
    if b.clock < deadline {
      var later := b.(clock := b.clock + POLL_INTERVAL);
      ReadTakesTime(later);
      ReadingChangesNothing(later);
      WatchingChangesNothing(ReadFanPower(later).0, baseline, deadline);
    }
  }

  /** A reported recovery is a real one, and a failed one leaves one of the two values. */
  lemma RestoreIsHonest(b: Bus, address: int, previous: int, target: int)
    requires address in b.registers && b.registers[address] in {previous, target}
    requires address != FAN_1_REGISTER && address != FAN_2_REGISTER
    ensures var (after, r) := Restore(b, address, previous);
            && Within(b.registers, after.registers, address, {previous, target})
            && (r == Success(true) ==> after.registers[address] == previous)
  {
  }

  lemma GivenUpIsHonest(b: Bus, command: Command, previous: int, baseline: FanPower, e: Trouble)
    requires command.Register() in b.registers && b.registers[command.Register()] in {previous, command.value}
    ensures var (after, a) := GivenUp(b, command, previous, baseline, e);
            && Within(b.registers, after.registers, command.Register(), {previous, command.value})
            && a.Settled?
            && (a.outcome.Returned? ==>
                  && a.outcome.result.state == FAILED && a.outcome.result.previous == previous
                  && (a.outcome.result.recovered ==> after.registers[command.Register()] == previous))
  {
    if e.Expected? {
      RestoreIsHonest(b, command.Register(), previous, command.value);
    }
  }

  lemma ChangedIsHonest(b: Bus, command: Command, previous: int, baseline: FanPower)
    requires command.Register() in b.registers && b.registers[command.Register()] == previous
    ensures var (after, a) := Changed(b, command, previous, baseline);
            && Within(b.registers, after.registers, command.Register(), {previous, command.value})
            && (a.Written? ==> after.registers[command.Register()] == command.value && a == Written(previous, baseline))
            && (a.Settled? && a.outcome.Returned? ==>
                  && a.outcome.result.state == FAILED && a.outcome.result.previous == previous
                  && (a.outcome.result.recovered ==> after.registers[command.Register()] == previous))
  {
    hide GivenUp;
    var register := command.Register();
    var (b1, written) := WriteOne(b, register, command.value);
    match written
    case Failure(e) => GivenUpIsHonest(b1, command, previous, baseline, e);
    case Success(_) =>
      var (b2, readback) := ReadOne(b1, register);
      GivenUpIsHonest(b2, command, previous, baseline, if readback.Failure? then readback.error else Expected);
  }

  // ----- the guarantees of a whole call

  /** What a call promises about the registers, by outcome. */
  ghost predicate Kept(before: map<int, int>, after: map<int, int>, command: Command, outcome: Outcome) {
    var register := command.Register();
    && after.Keys == before.Keys
    && (forall a :: a in before && a != register ==> after[a] == before[a])
    && (register in before ==>
          && after[register] in {before[register], command.value}
          && (!AllowedPrevious(command, before[register]) ==> after == before))
    && (outcome.Returned? ==>
          && register in before && outcome.result.previous == before[register]
          && outcome.result.command == command
          && (outcome.result.state == SUCCEEDED ==> after[register] == command.value)
          && (outcome.result.state == FAILED && outcome.result.recovered ==>
                after[register] == before[register])
          && (outcome.result.confirmed <==> outcome.result.state == SUCCEEDED))
  }

  /** SUCCEEDED means the target is in force, FAILED with recovery means the previous
      value is; nothing else is ever written, and an unexpected previous value is left alone. */
  lemma EveryOutcomeIsHonest(b: Bus, command: Command)
    ensures var (after, outcome) := ExecuteControlChange(b, command);
            Kept(b.registers, after.registers, command, outcome)
  {
    hide Changed, Confirmed, ReadFanPower, ReadOne;
    FirstRead(b, command);
    var (b1, read) := ReadOne(b, command.Register());
    if read.Success? && AllowedPrevious(command, read.value) {
      ReadingChangesNothing(b1);
      var (b2, power) := ReadFanPower(b1);
      if power.Success? && read.value != command.value {
        ChangedCallIsHonest(b2, command, read.value, power.value);
      }
    }
  }

  /** A speed call never changes any register but 1080, and there only between the values 0
      to 3; an airing call none but 1081, there only between 0 and 1. */
  lemma EachKindHasItsRegister(b: Bus, command: Command)
    ensures var before, after := b.registers, ExecuteControlChange(b, command).0.registers;
            && after.Keys == before.Keys
            && (command.kind == Speed ==>
                  && 0 <= command.value <= 3
                  && (forall a :: a in before && a != 1080 ==> after[a] == before[a])
                  && (1080 in before && !(0 <= before[1080] <= 3) ==> after == before))
            && (command.kind == Airing ==>
                  && 0 <= command.value <= 1
                  && (forall a :: a in before && a != 1081 ==> after[a] == before[a])
                  && (1081 in before && !(0 <= before[1081] <= 1) ==> after == before))
  {
    EveryOutcomeIsHonest(b, command);
    hide ExecuteControlChange;
  }

  lemma FirstRead(b: Bus, command: Command)
    ensures var (b1, read) := ReadOne(b, command.Register());
            && b1.registers == b.registers
            && (read.Success? ==> command.Register() in b.registers && b.registers[command.Register()] == read.value)
  {
  }

  /** The same for the part that writes. */
  lemma ChangedCallIsHonest(b: Bus, command: Command, previous: int, baseline: FanPower)
    requires command.Register() in b.registers && b.registers[command.Register()] == previous
    requires AllowedPrevious(command, previous)
    ensures var (after, outcome) := Concluded(Changed(b, command, previous, baseline), command);
            Kept(b.registers, after.registers, command, outcome)
  {
    hide Watch, Restore;
    ChangedIsHonest(b, command, previous, baseline);
    ChangedReports(b, command, previous, baseline);
    var (b1, a) := Changed(b, command, previous, baseline);
    if a.Written? {
      var deadline := b1.clock + EXECUTION_TIMEOUT;
      WatchingChangesNothing(b1, baseline, deadline);
      RestoreIsHonest(Watch(b1, baseline, deadline).0, command.Register(), previous, command.value);
    }
  }

  lemma ChangedReports(b: Bus, command: Command, previous: int, baseline: FanPower)
    ensures var a := Changed(b, command, previous, baseline).1;
            a.Settled? && a.outcome.Returned? ==> a.outcome.result.command == command && !a.outcome.result.confirmed
  {
    hide Restore;
  }

  /** The bus after k polls of the wait, when each of them read the baseline. */
  function AfterQuietPolls(b: Bus, baseline: FanPower, k: nat): Option<Bus>
    decreases k
  {
    if k == 0 then Some(b)
    else
      var (next, power) := ReadFanPower(b.(clock := b.clock + POLL_INTERVAL));
      if power == Success(baseline) then AfterQuietPolls(next, baseline, k - 1) else None
  }

  /** The wait leaves its loop at poll k: after k quiet polls there was time left, and the
      reading one interval later was another one; or there was no time left. */
  ghost predicate LeavesLoopAt(
    b: Bus, baseline: FanPower, deadline: int, k: nat, after: Bus, seen: Result<FanPower, Trouble>)
  {
    var start := AfterQuietPolls(b, baseline, k);
    && start.Some?
    && if start.value.clock >= deadline then seen == Success(baseline) && after == start.value
       else
         && ReadFanPower(start.value.(clock := start.value.clock + POLL_INTERVAL)) == (after, seen)
         && seen != Success(baseline)
  }

  /** SUCCEEDED on a new value rests on a reading of this very wait: after some number of
      polls that each read the baseline, a poll that began in time read another power.  A
      time-out means that the polls read the baseline until the deadline had passed. */
  lemma ConfirmationIsPhysical(b: Bus, baseline: FanPower, deadline: int)
    ensures var (after, seen) := Watch(b, baseline, deadline);
            exists k: nat :: LeavesLoopAt(b, baseline, deadline, k, after, seen)
  {
    var k := PollsOfWatch(b, baseline, deadline);
    hide LeavesLoopAt, Watch;
  }

  lemma {:induction false} PollsOfWatch(b: Bus, baseline: FanPower, deadline: int) returns (k: nat)
    ensures var (after, seen) := Watch(b, baseline, deadline);
            LeavesLoopAt(b, baseline, deadline, k, after, seen)
    decreases deadline - b.clock
  {
    hide ReadFanPower;
    var later := b.(clock := b.clock + POLL_INTERVAL);
    var (b1, power) := ReadFanPower(later);
    if b.clock < deadline && power == Success(baseline) {
      ReadTakesTime(later);
      var rest := PollsOfWatch(b1, baseline, deadline);
      k := rest + 1;
      assert AfterQuietPolls(b, baseline, k) == AfterQuietPolls(b1, baseline, rest);
    } else {
      k := 0;
    }
  }

  /** The intervals that a time span touches: 30 in the whole execution time-out. */
  function Intervals(span: int): nat {
    if span <= 0 then 0 else (span + POLL_INTERVAL - 1) / POLL_INTERVAL
  }

  lemma OneIntervalLess(span: int, rest: int)
    requires span > 0 && rest <= span - POLL_INTERVAL
    ensures Intervals(rest) + 1 <= Intervals(span)
  {
  }

  /** The wait polls at most once per interval of the time that is left. */
  lemma {:induction false} WatchIsBounded(b: Bus, baseline: FanPower, deadline: int)
    ensures |b.fates| - |Watch(b, baseline, deadline).0.fates| <=
            2 * Intervals(deadline - b.clock)
    decreases deadline - b.clock
  {
    if b.clock < deadline {
      var later := b.(clock := b.clock + POLL_INTERVAL);
      ReadTakesTime(later);
      ReadUsesTwoFates(later);
      WatchUnfolds(b, baseline, deadline);
      OneIntervalLess(deadline - b.clock, deadline - ReadFanPower(later).0.clock);
      IntervalsLeft(deadline - b.clock);
      hide *;
      WatchIsBounded(ReadFanPower(later).0, baseline, deadline);
    } else {
      WatchUnfolds(b, baseline, deadline);
    }
  }

  lemma IntervalsLeft(span: int)
    ensures Intervals(span) >= 0 && (span > 0 ==> Intervals(span) >= 1)
  {
  }

  lemma WatchUnfolds(b: Bus, baseline: FanPower, deadline: int)
    ensures b.clock >= deadline ==> Watch(b, baseline, deadline) == (b, Success(baseline))
    ensures b.clock < deadline ==>
              var (b1, power) := ReadFanPower(b.(clock := b.clock + POLL_INTERVAL));
              Watch(b, baseline, deadline) ==
              if power == Success(baseline) then Watch(b1, baseline, deadline) else (b1, power)
  {
    ReadTakesTime(b.(clock := b.clock + POLL_INTERVAL));
    hide ReadFanPower;
  }

  lemma ReadUsesTwoFates(b: Bus)
    ensures |b.fates| - 2 <= |ReadFanPower(b).0.fates| <= |b.fates|
  {
  }

  // ----- a call without faults

  /** The next n exchanges are answered, with percentages for the fan power. */
  ghost predicate Sane(b: Bus, n: nat) {
    && |b.fates| >= n
    && forall i :: 0 <= i < |b.fates| ==> b.fates[i].Fine? && 0 <= b.fates[i].fan <= 100
  }

  lemma SaneExchange(b: Bus, n: nat)
    requires Sane(b, n + 1)
    ensures Sane(Later(b), n) && NextFate(b).Fine? && 0 <= NextFate(b).fan <= 100
  {
  }

  lemma SaneRead(b: Bus, address: int, n: nat)
    requires Sane(b, n + 1) && address in b.registers
    requires address != FAN_1_REGISTER && address != FAN_2_REGISTER
    ensures ReadOne(b, address).1 == Success(b.registers[address]) && Sane(ReadOne(b, address).0, n)
    ensures ReadOne(b, address).0.registers == b.registers
  {
    SaneExchange(b, n);
    hide Sane;
  }

  lemma SaneWrite(b: Bus, address: int, value: int, n: nat)
    requires Sane(b, n + 1) && address in b.registers
    ensures var (after, r) := WriteOne(b, address, value);
            r.Success? && Sane(after, n) && after.registers == b.registers[address := value]
  {
    SaneExchange(b, n);
  }

  lemma SanePower(b: Bus, n: nat)
    requires Sane(b, n + 2)
    ensures ReadFanPower(b).1.Success? && Sane(ReadFanPower(b).0, n)
  {
    SaneExchange(b, n + 1);
    SaneExchange(Later(b), n);
    hide Sane, NextFate;
  }

  lemma SaneRestore(b: Bus, address: int, previous: int)
    requires Sane(b, 2) && address in b.registers
    requires address != FAN_1_REGISTER && address != FAN_2_REGISTER
    ensures Restore(b, address, previous).1 == Success(true)
  {
    SaneWrite(b, address, previous, 1);
    SaneRead(WriteOne(b, address, previous).0, address, 0);
    hide Sane, ReadOne, WriteOne;
  }

  lemma {:induction false} SaneWatch(b: Bus, baseline: FanPower, deadline: int, n: nat)
    requires Sane(b, n + 2 * Intervals(deadline - b.clock))
    ensures Watch(b, baseline, deadline).1.Success? && Sane(Watch(b, baseline, deadline).0, n)
    decreases deadline - b.clock
  {
    if b.clock < deadline {
      var later := b.(clock := b.clock + POLL_INTERVAL);
      ReadTakesTime(later);
      var rest := deadline - ReadFanPower(later).0.clock;
      OneIntervalLess(deadline - b.clock, rest);
      SanePower(later, n + 2 * Intervals(deadline - b.clock) - 2);
      assert Sane(ReadFanPower(later).0, n + 2 * Intervals(rest));
      hide ReadFanPower, Sane, Intervals;
      SaneWatch(ReadFanPower(later).0, baseline, deadline, n);
    } else {
      assert Sane(b, n);
    }
  }

  /** Exchanges of the longest call: one and two readings, the write and its readback, two
      readings in each of the 30 polls, and the restore. */
  const LONGEST_CALL: nat := 67

  /** Without faults a call returns, and when the previous value is one of the expected
      values it ends with the target confirmed or the previous value restored. */
  lemma FaultFreeCallConfirmsOrRestores(b: Bus, command: Command)
    requires command.Register() in b.registers && Sane(b, LONGEST_CALL)
    ensures var (after, outcome) := ExecuteControlChange(b, command);
            && outcome.Returned?
            && (AllowedPrevious(command, b.registers[command.Register()]) ==>
                  outcome.result.state == SUCCEEDED || outcome.result.recovered)
  {
    var register := command.Register();
    SaneRead(b, register, 66);
    var b1 := ReadOne(b, register).0;
    SanePower(b1, 64);
    ReadingChangesNothing(b1);
    var (b2, power) := ReadFanPower(b1);
    var previous := b.registers[register];
    hide Sane, ReadOne, WriteOne, ReadFanPower, Watch, Restore, Intervals;
    if AllowedPrevious(command, previous) && previous != command.value {
      SaneWrite(b2, register, command.value, 63);
      var b3 := WriteOne(b2, register, command.value).0;
      SaneRead(b3, register, 62);
      SaneConfirmed(ReadOne(b3, register).0, command, previous, power.value);
    }
  }

  lemma SaneConfirmed(b: Bus, command: Command, previous: int, baseline: FanPower)
    requires command.Register() in b.registers && Sane(b, 62)
    ensures var outcome := Confirmed(b, command, previous, baseline).1;
            outcome.Returned? && (outcome.result.state == SUCCEEDED || outcome.result.recovered)
  {
    var deadline := b.clock + EXECUTION_TIMEOUT;
    assert Intervals(deadline - b.clock) == 30;
    SaneWatch(b, baseline, deadline, 2);
    WatchingChangesNothing(b, baseline, deadline);
    hide Sane, Watch, Restore, Intervals;
    SaneRestore(Watch(b, baseline, deadline).0, command.Register(), previous);
  }

  // ----- a call that raises

  /** The wait began, and one of its fan-power readings failed. */
  predicate ConfirmationBreaks(b: Bus, command: Command) {
    var (b1, a) := Attempted(b, command);
    a.Written? && Watch(b1, a.baseline, b1.clock + EXECUTION_TIMEOUT).1.Failure?
  }

  /** A fan-power reading that fails during the wait ends the call with an exception and
      leaves the target in force: the restore step is skipped. */
  lemma BrokenConfirmationLeavesTarget(b: Bus, command: Command)
    requires ConfirmationBreaks(b, command)
    ensures var (after, outcome) := ExecuteControlChange(b, command);
            && outcome == Raised
            && command.Register() in b.registers && b.registers[command.Register()] != command.value
            && after.registers == b.registers[command.Register() := command.value]
  {
    hide *;
    ConfirmationDecides(b, command);
    WrittenMeansTarget(b, command);
    var (b1, a) := Attempted(b, command);
    WatchingChangesNothing(b1, a.baseline, b1.clock + EXECUTION_TIMEOUT);
    BrokenWaitRaises(b1, command, a.previous, a.baseline);
  }

  lemma ConfirmationDecides(b: Bus, command: Command)
    requires ConfirmationBreaks(b, command)
    ensures var (b1, a) := Attempted(b, command);
            && a.Written? && Watch(b1, a.baseline, b1.clock + EXECUTION_TIMEOUT).1.Failure?
            && ExecuteControlChange(b, command) == Confirmed(b1, command, a.previous, a.baseline)
  {
    hide Attempted, Watch, Confirmed;
  }

  lemma BrokenWaitRaises(b: Bus, command: Command, previous: int, baseline: FanPower)
    requires Watch(b, baseline, b.clock + EXECUTION_TIMEOUT).1.Failure?
    ensures Confirmed(b, command, previous, baseline) ==
            (Watch(b, baseline, b.clock + EXECUTION_TIMEOUT).0, Raised)
  {
    hide Watch, Restore;
  }

  /** It happens: speed 1 to 2, everything answers, and then one reading is lost. */
  lemma RestoreCanBeSkipped()
    ensures var fine := Fine(0, 10);
            var b := Bus(map[SPEED_REGISTER := 1], 0, [fine, fine, fine, fine, fine, Fault(0, false, Expected)]);
            var (after, outcome) := ExecuteControlChange(b, RawCommand(Speed, 2));
            outcome == Raised && after.registers == map[SPEED_REGISTER := 2]
  {
    var fine, lost := Fine(0, 10), Fault(0, false, Expected);
    var command: Command := RawCommand(Speed, 2);
    var b := Bus(map[SPEED_REGISTER := 1], 0, [fine, fine, fine, fine, fine, lost]);
    var b1 := b.(fates := [fine, fine, fine, fine, lost]);
    var b3 := b.(fates := [fine, fine, lost]);
    var b5 := Bus(map[SPEED_REGISTER := 2], 0, [lost]);
    assert ReadOne(b, SPEED_REGISTER) == (b1, Success(1));
    assert ReadFanPower(b1) == (b3, Success(FanPower(10, 10)));
    var b4 := Bus(map[SPEED_REGISTER := 2], 0, [fine, lost]);
    assert b.registers[SPEED_REGISTER := 2] == map[SPEED_REGISTER := 2];
    assert WriteOne(b3, SPEED_REGISTER, 2) == (b4, Success(2));
    assert ReadOne(b4, SPEED_REGISTER) == (b5, Success(2));
    assert Changed(b3, command, 1, FanPower(10, 10)) == (b5, Written(1, FanPower(10, 10)));
    assert Attempted(b, command) == (b5, Written(1, FanPower(10, 10)));
    assert ReadFanPower(b5.(clock := POLL_INTERVAL)).1 == Failure(Expected);
    BrokenConfirmationLeavesTarget(b, command);
  }

  lemma WrittenMeansTarget(b: Bus, command: Command)
    requires Attempted(b, command).1.Written?
    ensures command.Register() in b.registers && b.registers[command.Register()] != command.value
    ensures Attempted(b, command).0.registers == b.registers[command.Register() := command.value]
  {
    hide Changed, ReadFanPower, ReadOne;
    FirstRead(b, command);
    var (b1, read) := ReadOne(b, command.Register());
    ReadingChangesNothing(b1);
    var (b2, power) := ReadFanPower(b1);
    ChangedIsHonest(b2, command, read.value, power.value);
    var (after, a) := Changed(b2, command, read.value, power.value);
    assert a.Written? && after.registers[command.Register()] == command.value;
    assert Within(b.registers, after.registers, command.Register(), {read.value, command.value});
    WithinIsUpdate(b.registers, after.registers, command.Register(), {read.value, command.value});
  }

  // ----- the same as the program runs it

  class ControlPort {
    var registers: map<int, int>
    var clock: nat
    var fates: seq<Fate>

    ghost function View(): Bus
      reads this
    {
      Bus(registers, clock, fates)
    }

    constructor (registers: map<int, int>, clock: nat, fates: seq<Fate>)
      ensures View() == Bus(registers, clock, fates)
    {
      this.registers, this.clock, this.fates := registers, clock, fates;
    }

    method Exchange() returns (f: Fate)
      modifies this
      ensures f == NextFate(old(View())) && View() == Later(old(View()))
    {
      f := if fates == [] then Fault(0, false, Expected) else fates[0];
      clock := clock + f.wait;
      fates := if fates == [] then [] else fates[1..];
    }

    method ReadRegister(address: int) returns (r: Result<int, Trouble>)
      modifies this
      ensures (View(), r) == ReadOne(old(View()), address)
    {
      var f := Exchange();
      match f {
        case Fault(_, _, trouble) => r := Failure(trouble);
        case Fine(_, fan) =>
          if address == FAN_1_REGISTER || address == FAN_2_REGISTER {
            r := Success(fan);
          } else if address in registers {
            r := Success(registers[address]);
          } else {
            r := Failure(Expected);
          }
      }
    }

    method WriteRegister(address: int, value: int) returns (r: Result<int, Trouble>)
      modifies this
      ensures (View(), r) == WriteOne(old(View()), address, value)
    {
      var f := Exchange();
      var known := address in registers;
      match f {
        case Fault(_, lands, trouble) =>
          if lands {
            registers := Stored(registers, address, value);
          }
          r := Failure(trouble);
        case Fine(_, _) =>
          registers := Stored(registers, address, value);
          r := if known then Success(value) else Failure(Expected);
      }
    }

    method ReadPower() returns (r: Result<FanPower, Trouble>)
      modifies this
      ensures (View(), r) == ReadFanPower(old(View()))
    {
      hide ReadOne;
      var fan1 := ReadRegister(FAN_1_REGISTER);
      match fan1 {
        case Failure(e) => r := Failure(e);
        case Success(p1) =>
          var fan2 := ReadRegister(FAN_2_REGISTER);
          match fan2 {
            case Failure(e) => r := Failure(e);
            case Success(p2) => r := Power(p1, p2);
          }
      }
    }

    method RestorePrevious(address: int, previous: int) returns (r: Result<bool, Trouble>)
      modifies this
      ensures (View(), r) == Restore(old(View()), address, previous)
    {
      hide ReadOne, WriteOne;
      var written := WriteRegister(address, previous);
      match written {
        case Failure(e) => r := if e.Expected? then Success(false) else Failure(e);
        case Success(_) =>
          var readback := ReadRegister(address);
          match readback {
            case Failure(e) => r := if e.Expected? then Success(false) else Failure(e);
            case Success(value) => r := Success(value == previous);
          }
      }
    }

    method GiveUp(command: Command, previous: int, baseline: FanPower, e: Trouble) returns (outcome: Outcome)
      modifies this
      ensures (View(), Settled(outcome)) == GivenUp(old(View()), command, previous, baseline, e)
    {
      hide Restore;
      match e {
        case Unexpected => outcome := Raised;
        case Expected =>
          var recovered := RestorePrevious(command.Register(), previous);
          match recovered {
            case Failure(_) => outcome := Raised;
            case Success(yes) => outcome := Returned(NotWritten(command, previous, baseline, yes));
          }
      }
    }

    /** The timed loop, with the time that is left as its measure. */
    method AwaitChange(baseline: FanPower) returns (seen: Result<FanPower, Trouble>)
      modifies this
      ensures (View(), seen) == Watch(old(View()), baseline, old(clock) + EXECUTION_TIMEOUT)
    {
      hide ReadFanPower;
      var deadline := clock + EXECUTION_TIMEOUT;
      while clock < deadline
        invariant Watch(View(), baseline, deadline) == Watch(old(View()), baseline, deadline)
        decreases deadline - clock
      {
        clock := clock + POLL_INTERVAL;
        ReadTakesTime(View());
        var power := ReadPower();
        match power {
          case Failure(_) => return power;
          case Success(observed) =>
            if observed != baseline {
              return power;
            }
        }
      }
      seen := Success(baseline);
    }

    method Execute(command: Command) returns (outcome: Outcome)
      modifies this
      ensures (View(), outcome) == ExecuteControlChange(old(View()), command)
      ensures Kept(old(registers), registers, command, outcome)
    {
      hide ReadOne, ReadFanPower, Changed, Confirmed, Kept;
      EveryOutcomeIsHonest(View(), command);
      var read := ReadRegister(command.Register());
      match read {
        case Failure(_) => outcome := Raised;
        case Success(previous) =>
          if !AllowedPrevious(command, previous) {
            return Returned(Refused(command, previous));
          }
          var power := ReadPower();
          match power {
            case Failure(_) => outcome := Raised;
            case Success(baseline) =>
              if previous == command.value {
                return Returned(AlreadyThere(command, baseline));
              }
              outcome := Change(command, previous, baseline);
          }
      }
    }

    /** From the write on. */
    method Change(command: Command, previous: int, baseline: FanPower) returns (outcome: Outcome)
      modifies this
      ensures (View(), outcome) == Concluded(Changed(old(View()), command, previous, baseline), command)
    {
      hide ReadOne, WriteOne, Restore, Watch, GivenUp;
      GivenUpSettles(command, previous, baseline);
      var written := WriteRegister(command.Register(), command.value);
      match written {
        case Failure(e) => outcome := GiveUp(command, previous, baseline, e);
        case Success(_) =>
          var readback := ReadRegister(command.Register());
          match readback {
            case Failure(e) => outcome := GiveUp(command, previous, baseline, e);
            case Success(value) =>
              if value != command.value {
                outcome := GiveUp(command, previous, baseline, Expected);
              } else {
                outcome := Confirm(command, previous, baseline);
              }
          }
      }
    }

    method Confirm(command: Command, previous: int, baseline: FanPower) returns (outcome: Outcome)
      modifies this
      ensures (View(), outcome) == Confirmed(old(View()), command, previous, baseline)
    {
      hide Restore, Watch;
      var seen := AwaitChange(baseline);
      match seen {
        case Failure(_) => outcome := Raised;
        case Success(observed) =>
          if observed != baseline {
            return Returned(Watched(command, previous, baseline, observed, false));
          }
          var recovered := RestorePrevious(command.Register(), previous);
          match recovered {
            case Failure(_) => outcome := Raised;
            case Success(yes) => outcome := Returned(Watched(command, previous, baseline, observed, yes));
          }
      }
    }
  }

  lemma GivenUpSettles(command: Command, previous: int, baseline: FanPower)
    ensures forall b, e :: GivenUp(b, command, previous, baseline, e).1.Settled?
  {
  }
}
