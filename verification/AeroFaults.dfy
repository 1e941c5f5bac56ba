/** When a guarded AERO write ends with an exception and leaves the register changed,
    although it documents a restore: a condition on the fates of the exchanges, for every
    script. */
module AeroFaults {
  import opened Common
  import opened AeroControl
  import opened AeroExecutor

  // ----- the script, by position

  /** The fate of exchange i from here on. */
  function At(b: Bus, i: nat): Fate {
    if i < |b.fates| then b.fates[i] else Fault(0, false, Expected)
  }

  /** The time that the first n exchanges take. */
  function Elapsed(b: Bus, n: nat): nat {
    if n == 0 then 0 else Elapsed(b, n - 1) + At(b, n - 1).wait
  }

  /** The bus after n exchanges that changed nothing. */
  function Drop(b: Bus, n: nat): Bus {
    Bus(b.registers, b.clock + Elapsed(b, n), if n <= |b.fates| then b.fates[n..] else [])
  }

  lemma NextAfterDrop(b: Bus, n: nat)
    ensures NextFate(Drop(b, n)) == At(b, n) && Later(Drop(b, n)) == Drop(b, n + 1)
    ensures Drop(b, 0) == b && Drop(b, n).registers == b.registers
    ensures forall i: nat :: At(Drop(b, n), i) == At(b, n + i)
  {
    hide Elapsed;
    assert Elapsed(b, n + 1) == Elapsed(b, n) + At(b, n).wait by { ElapsedOne(b, n); }
    assert Elapsed(b, 0) == 0 by { ElapsedNone(b); }
  }

  lemma ElapsedOne(b: Bus, n: nat)
    ensures Elapsed(b, n + 1) == Elapsed(b, n) + At(b, n).wait
  {
  }

  lemma ElapsedNone(b: Bus)
    ensures Elapsed(b, 0) == 0
  {
  }

  // ----- the condition

  /** An exchange that ends in an exception which the write path does not catch. */
  predicate Escapes(f: Fate) {
    f.Fault? && f.trouble.Unexpected?
  }

  /** With the target in force, the restore escapes before it has written. */
  predicate RestoreEscapes(f: Fate) {
    Escapes(f) && !f.lands
  }

  /** The power that two answered exchanges show, if it is one. */
  function PowerAt(b: Bus, i: nat): Result<FanPower, Trouble> {
    if At(b, i).Fine? && At(b, i + 1).Fine? then Power(At(b, i).fan, At(b, i + 1).fan) else Failure(Expected)
  }

  /** Everything up to the write is in order: the register shows another expected value,
      and the baseline is read. */
  predicate ReachesWrite(b: Bus, command: Command) {
    && command.Register() in b.registers && At(b, 0).Fine?
    && AllowedPrevious(command, b.registers[command.Register()])
    && b.registers[command.Register()] != command.value
    && PowerAt(b, 1).Success?
  }

  /** The clock when poll k of a wait may begin: k polls with their pauses and readings. */
  function PollClock(b: Bus, k: nat): nat {
    b.clock + Elapsed(b, 2 * k) + k * POLL_INTERVAL
  }

  /** The wait of this bus ends at poll k: all polls before it began in time and read the
      baseline, and it begins too late and the restore escapes, or it begins in time and one
      of its readings fails or shows no percentage. */
  predicate WaitEndsBadly(b: Bus, baseline: FanPower, deadline: int, k: nat) {
    && (forall j: nat :: j < k ==> PollClock(b, j) < deadline && PowerAt(b, 2 * j) == Success(baseline))
    && (if PollClock(b, k) < deadline then PowerAt(b, 2 * k).Failure? else RestoreEscapes(At(b, 2 * k)))
  }

  ghost predicate WaitFails(b: Bus, baseline: FanPower, deadline: int) {
    exists k: nat :: WaitEndsBadly(b, baseline, deadline, k)
  }

  /** From the write on: it lands and escapes, or the restore after it does; the readback
      escapes, or the restore after it does; or the wait fails. */
  predicate WriteFails(write: Fate, second: Fate, third: Fate, waitFails: bool) {
    if write.Fault? then write.lands && (Escapes(write) || RestoreEscapes(second))
    else if second.Fault? then Escapes(second) || RestoreEscapes(third)
    else waitFails
  }

  /** The target stays in the register and the call raises. */
  ghost predicate LeavesTarget(b: Bus, command: Command) {
    ReachesWrite(b, command) &&
    WriteFails(At(b, 3), At(b, 4), At(b, 5),
               WaitFails(Drop(b, 5), PowerAt(b, 1).value, Drop(b, 5).clock + EXECUTION_TIMEOUT))
  }

  // ----- the parts of the call, exchange by exchange

  lemma ReadAt(b: Bus, n: nat, address: int)
    requires address != FAN_1_REGISTER && address != FAN_2_REGISTER
    ensures var (after, r) := ReadOne(Drop(b, n), address);
            && after == Drop(b, n + 1)
            && (r.Success? <==> At(b, n).Fine? && address in b.registers)
            && (r.Success? ==> r.value == b.registers[address])
            && (r.Failure? ==> r.error.Unexpected? == Escapes(At(b, n)))
  {
    NextAfterDrop(b, n);
    hide Drop, At, NextFate, Later;
  }

  lemma PowerReadAt(b: Bus, n: nat)
    ensures var (after, r) := ReadFanPower(Drop(b, n));
            && (r.Success? <==> PowerAt(b, n).Success?)
            && (r.Success? ==> r == PowerAt(b, n) && after == Drop(b, n + 2))
            && after.registers == b.registers
  {
    NextAfterDrop(b, n);
    NextAfterDrop(b, n + 1);
    hide At, NextFate, Later;
  }

  lemma AttemptInParts(b: Bus, command: Command)
    ensures !ReachesWrite(b, command) ==>
              Attempted(b, command).1.Settled? && Attempted(b, command).0.registers == b.registers
    ensures ReachesWrite(b, command) ==>
              Attempted(b, command) ==
              Changed(Drop(b, 3), command, b.registers[command.Register()], PowerAt(b, 1).value)
  {
    NextAfterDrop(b, 0);
    ReadAt(b, 0, command.Register());
    PowerReadAt(b, 1);
    hide At, Drop, ReadOne, ReadFanPower, Changed, PowerAt;
  }

  /** Raised, with another value in the register than at the start. */
  predicate RaisedWith(end: (Bus, Outcome), address: int, value: int) {
    end.1.Raised? && address in end.0.registers && end.0.registers[address] == value
  }

  lemma RestoreLeaves(b: Bus, address: int, previous: int, target: int)
    requires address in b.registers && b.registers[address] in {previous, target} && previous != target
    requires address != FAN_1_REGISTER && address != FAN_2_REGISTER
    ensures var (after, r) := Restore(b, address, previous);
            && address in after.registers
            && (r.Failure? && after.registers[address] == target <==>
                  b.registers[address] == target && RestoreEscapes(NextFate(b)))
  {
  }

  lemma GivenUpLeaves(b: Bus, command: Command, previous: int, baseline: FanPower, e: Trouble)
    requires command.Register() in b.registers && previous != command.value
    requires b.registers[command.Register()] in {previous, command.value}
    ensures var end := Concluded(GivenUp(b, command, previous, baseline, e), command);
            RaisedWith(end, command.Register(), command.value) <==>
            b.registers[command.Register()] == command.value && (e.Unexpected? || RestoreEscapes(NextFate(b)))
  {
    RestoreLeaves(b, command.Register(), previous, command.value);
    hide Restore, RestoreEscapes, NextFate;
  }

  /** The write and its readback. */
  lemma ChangedLeaves(b: Bus, command: Command, previous: int, baseline: FanPower)
    requires command.Register() in b.registers && b.registers[command.Register()] == previous
    requires previous != command.value
    ensures var end := Concluded(Changed(b, command, previous, baseline), command);
            var written := b.(registers := b.registers[command.Register() := command.value]);
            RaisedWith(end, command.Register(), command.value) <==>
            WriteFails(At(b, 0), At(b, 1), At(b, 2),
                       RaisedWith(Confirmed(Drop(written, 2), command, previous, baseline),
                                  command.Register(), command.value))
  {
    var register := command.Register();
    var written := b.(registers := b.registers[register := command.value]);
    var (b1, w) := WriteOne(b, register, command.value);
    WriteAt(b, register, command.value);
    match w
    case Failure(e) => GivenUpLeaves(b1, command, previous, baseline, e);
    case Success(_) =>
      ReadAt(written, 1, register);
      SameFates(written, b);
      NextAfterDrop(written, 2);
      hide ReadOne, WriteOne, Drop, At, NextFate, Escapes, RestoreEscapes, Confirmed, GivenUp;
      var (b2, r) := ReadOne(b1, register);
      GivenUpLeaves(b2, command, previous, baseline, if r.Failure? then r.error else Expected);
  }

  lemma WriteAt(b: Bus, address: int, value: int)
    requires address in b.registers
    ensures var (after, r) := WriteOne(b, address, value);
            var written := b.(registers := b.registers[address := value]);
            && (r.Success? <==> At(b, 0).Fine?)
            && (r.Failure? ==> r.error.Unexpected? == Escapes(At(b, 0)))
            && after == Drop(if At(b, 0).Fine? || At(b, 0).lands then written else b, 1)
            && NextFate(after) == At(b, 1)
  {
    var written := b.(registers := b.registers[address := value]);
    NextAfterDrop(b, 0);
    NextAfterDrop(written, 0);
    NextAfterDrop(b, 1);
    NextAfterDrop(written, 1);
  }

  lemma SameFates(b: Bus, c: Bus)
    requires b.fates == c.fates
    ensures forall i: nat :: At(b, i) == At(c, i)
  {
  }

  // ----- the wait

  lemma ElapsedAfter(b: Bus, n: nat, k: nat)
    ensures Elapsed(b, n + k) == Elapsed(b, n) + Elapsed(Drop(b, n), k)
    decreases k
  {
    if k > 0 {
      ElapsedAfter(b, n, k - 1);
      NextAfterDrop(b, n);
      ElapsedOne(b, n + k - 1);
    }
  }

  /** The bus of the next poll, after one that read the baseline. */
  function NextPoll(b: Bus): Bus {
    Drop(b, 2).(clock := b.clock + Elapsed(b, 2) + POLL_INTERVAL)
  }

  lemma NextPollShifts(b: Bus, k: nat)
    ensures PollClock(NextPoll(b), k) == PollClock(b, k + 1)
    ensures PowerAt(NextPoll(b), 2 * k) == PowerAt(b, 2 * (k + 1))
    ensures At(NextPoll(b), 2 * k) == At(b, 2 * (k + 1))
  {
    NextAfterDrop(b, 2);
    SameFates(NextPoll(b), Drop(b, 2));
    ElapsedAfter(b, 2, 2 * k);
    SameElapsed(NextPoll(b), Drop(b, 2), 2 * k);
    hide Drop, Elapsed, At;
    assert PowerAt(NextPoll(b), 2 * k) == PowerAt(b, 2 * k + 2);
  }

  lemma {:induction false} SameElapsed(b: Bus, c: Bus, n: nat)
    requires b.fates == c.fates
    ensures Elapsed(b, n) == Elapsed(c, n)
  {
    if n > 0 {
      SameElapsed(b, c, n - 1);
    }
  }

  lemma PollReads(b: Bus)
    ensures var (after, power) := ReadFanPower(b.(clock := b.clock + POLL_INTERVAL));
            && (power.Success? <==> PowerAt(b, 0).Success?)
            && (power.Success? ==> power == PowerAt(b, 0) && after == NextPoll(b))
            && after.registers == b.registers
  {
    var slept := b.(clock := b.clock + POLL_INTERVAL);
    PowerReadAt(slept, 0);
    NextAfterDrop(slept, 0);
    SameFates(slept, b);
    SameElapsed(slept, b, 2);
    hide Elapsed, At, ReadFanPower;
  }

  /** The wait that begins with a poll reading the baseline fails when the rest fails. */
  lemma QuietPollDecidesNothing(b: Bus, baseline: FanPower, deadline: int)
    requires b.clock < deadline && PowerAt(b, 0) == Success(baseline)
    ensures WaitFails(b, baseline, deadline) <==> WaitFails(NextPoll(b), baseline, deadline)
  {
    var c := NextPoll(b);
    PollZero(b);
    forall k: nat ensures WaitEndsBadly(b, baseline, deadline, k + 1) <==> WaitEndsBadly(c, baseline, deadline, k) {
      OnePollLater(b, baseline, deadline, k);
    }
    hide PollClock, PowerAt, NextPoll;
    if WaitFails(b, baseline, deadline) {
      var k: nat :| WaitEndsBadly(b, baseline, deadline, k);
      assert !WaitEndsBadly(b, baseline, deadline, 0);
      assert WaitEndsBadly(c, baseline, deadline, k - 1);
    }
  }

  lemma PollZero(b: Bus)
    ensures PollClock(b, 0) == b.clock && 2 * 0 == 0
  {
  }

  lemma OnePollLater(b: Bus, baseline: FanPower, deadline: int, k: nat)
    requires b.clock < deadline && PowerAt(b, 0) == Success(baseline)
    ensures WaitEndsBadly(b, baseline, deadline, k + 1) <==> WaitEndsBadly(NextPoll(b), baseline, deadline, k)
  {
    var c := NextPoll(b);
    PollZero(b);
    NextPollShifts(b, k);
    forall j: nat
      ensures PollClock(c, j) == PollClock(b, j + 1) && PowerAt(c, 2 * j) == PowerAt(b, 2 * (j + 1))
    {
      NextPollShifts(b, j);
    }
    hide PollClock, PowerAt, NextPoll, At, RestoreEscapes;
    if WaitEndsBadly(c, baseline, deadline, k) {
      forall j: nat | j < k + 1 ensures PollClock(b, j) < deadline && PowerAt(b, 2 * j) == Success(baseline) {
        if j > 0 {
          assert PollClock(c, j - 1) < deadline && PowerAt(c, 2 * (j - 1)) == Success(baseline);
        }
      }
    }
    if WaitEndsBadly(b, baseline, deadline, k + 1) {
      forall j: nat | j < k ensures PollClock(c, j) < deadline && PowerAt(c, 2 * j) == Success(baseline) {
        assert PollClock(b, j + 1) < deadline && PowerAt(b, 2 * (j + 1)) == Success(baseline);
      }
    }
  }

  /** The wait and the restore after it raise if and only if the script says so. */
  lemma {:induction false} WatchLeaves(b: Bus, address: int, previous: int, baseline: FanPower, deadline: int)
    requires address in b.registers && b.registers[address] != previous
    requires address != FAN_1_REGISTER && address != FAN_2_REGISTER
    ensures var (after, seen) := Watch(b, baseline, deadline);
            var (restored, r) := Restore(after, address, previous);
            WaitFails(b, baseline, deadline) <==>
            seen.Failure? || (seen == Success(baseline) && r.Failure? && address in restored.registers &&
                              restored.registers[address] == b.registers[address])
    decreases deadline - b.clock
  {
    PollZero(b);
    if b.clock >= deadline {
      RestoreLeaves(b, address, previous, b.registers[address]);
      LateWait(b, baseline, deadline);
    } else {
      PollReads(b);
      var later := b.(clock := b.clock + POLL_INTERVAL);
      var (b1, power) := ReadFanPower(later);
      ReadTakesTime(later);
      hide ReadFanPower, Restore, WaitFails, NextPoll, PowerAt, At;
      if power == Success(baseline) {
        QuietPollDecidesNothing(b, baseline, deadline);
        WatchLeaves(b1, address, previous, baseline, deadline);
      } else {
        LoudPollDecides(b, baseline, deadline);
      }
    }
  }

  lemma LateWait(b: Bus, baseline: FanPower, deadline: int)
    requires b.clock >= deadline
    ensures WaitFails(b, baseline, deadline) <==> RestoreEscapes(NextFate(b))
  {
    PollZero(b);
    NextAfterDrop(b, 0);
    hide PollClock, PowerAt;
    if RestoreEscapes(NextFate(b)) { assert WaitEndsBadly(b, baseline, deadline, 0); }
    if WaitFails(b, baseline, deadline) {
      var k: nat :| WaitEndsBadly(b, baseline, deadline, k);
      assert !(PollClock(b, 0) < deadline);
    }
  }

  lemma LoudPollDecides(b: Bus, baseline: FanPower, deadline: int)
    requires b.clock < deadline && PowerAt(b, 0) != Success(baseline)
    ensures WaitFails(b, baseline, deadline) <==> PowerAt(b, 0).Failure?
  {
    PollZero(b);
    hide PollClock, PowerAt;
    if PowerAt(b, 0).Failure? { assert WaitEndsBadly(b, baseline, deadline, 0); }
    if WaitFails(b, baseline, deadline) {
      var k: nat :| WaitEndsBadly(b, baseline, deadline, k);
      assert PowerAt(b, 2 * 0) != Success(baseline);
    }
  }

  lemma ConfirmedLeaves(b: Bus, command: Command, previous: int, baseline: FanPower)
    requires command.Register() in b.registers && b.registers[command.Register()] == command.value
    requires previous != command.value
    ensures RaisedWith(Confirmed(b, command, previous, baseline), command.Register(), command.value) <==>
            WaitFails(b, baseline, b.clock + EXECUTION_TIMEOUT)
  {
    var deadline := b.clock + EXECUTION_TIMEOUT;
    WatchLeaves(b, command.Register(), previous, baseline, deadline);
    WatchingChangesNothing(b, baseline, deadline);
    hide Watch, Restore, WaitFails;
  }

  // ----- the result

  lemma WaitDependsOnFates(b: Bus, c: Bus, baseline: FanPower, deadline: int)
    requires b.fates == c.fates && b.clock == c.clock
    ensures WaitFails(b, baseline, deadline) <==> WaitFails(c, baseline, deadline)
  {
    SameFates(b, c);
    forall n: nat ensures Elapsed(b, n) == Elapsed(c, n) { SameElapsed(b, c, n); }
    hide At, Elapsed, RestoreEscapes;
    assert forall k: nat :: PollClock(b, k) == PollClock(c, k);
    assert forall i: nat :: PowerAt(b, i) == PowerAt(c, i);
    hide PollClock, PowerAt;
    forall k: nat ensures WaitEndsBadly(b, baseline, deadline, k) <==> WaitEndsBadly(c, baseline, deadline, k) {}
  }

  /** For every script: the call raises and leaves the register changed if and only if it
      gets as far as the write and then a landed write escapes, the readback escapes, the
      restore escapes before it has written, or a power reading of the wait fails or shows
      no percentage before any reading differs from the baseline. */
  lemma RaisedChangedExactly(b: Bus, command: Command)
    ensures var (after, outcome) := ExecuteControlChange(b, command);
            outcome == Raised && after.registers != b.registers <==> LeavesTarget(b, command)
  {
    LeavesTargetUnfolds(b, command);
    WriteNotReached(b, command);
    hide *;
    if ReachesWrite(b, command) {
      WriteReached(b, command);
      EveryOutcomeIsHonest(b, command);
      RaisedWithIsChange(b, command);
      WriteLeaves(b, command);
    }
  }

  lemma LeavesTargetUnfolds(b: Bus, command: Command)
    ensures !ReachesWrite(b, command) ==> !LeavesTarget(b, command)
    ensures ReachesWrite(b, command) ==>
              (LeavesTarget(b, command) <==>
               WriteFails(At(b, 3), At(b, 4), At(b, 5),
                          WaitFails(Drop(b, 5), PowerAt(b, 1).value, Drop(b, 5).clock + EXECUTION_TIMEOUT)))
  {
    hide ReachesWrite, WriteFails, WaitFails;
  }

  lemma WriteNotReached(b: Bus, command: Command)
    ensures !ReachesWrite(b, command) ==> ExecuteControlChange(b, command).0.registers == b.registers
  {
    AttemptInParts(b, command);
    hide ReachesWrite, Attempted, Changed, Drop, PowerAt;
  }

  lemma WriteLeaves(b: Bus, command: Command)
    requires ReachesWrite(b, command)
    ensures RaisedWith(ExecuteControlChange(b, command), command.Register(), command.value) <==>
            WriteFails(At(b, 3), At(b, 4), At(b, 5),
                       WaitFails(Drop(b, 5), PowerAt(b, 1).value, Drop(b, 5).clock + EXECUTION_TIMEOUT))
  {
    var previous, baseline := b.registers[command.Register()], PowerAt(b, 1).value;
    WriteReached(b, command);
    hide *;
    ChangedLeaves(Drop(b, 3), command, previous, baseline);
    WaitAfterWrite(b, command, previous, baseline);
  }

  lemma WriteReached(b: Bus, command: Command)
    requires ReachesWrite(b, command)
    ensures command.Register() in b.registers && b.registers[command.Register()] != command.value
    ensures Drop(b, 3).registers == b.registers
    ensures ExecuteControlChange(b, command) ==
            Concluded(Changed(Drop(b, 3), command, b.registers[command.Register()], PowerAt(b, 1).value), command)
    ensures At(Drop(b, 3), 0) == At(b, 3) && At(Drop(b, 3), 1) == At(b, 4) && At(Drop(b, 3), 2) == At(b, 5)
  {
    AttemptInParts(b, command);
    NextAfterDrop(b, 3);
    hide Attempted, Changed, Concluded, At, Drop, PowerAt;
  }

  lemma RaisedWithIsChange(b: Bus, command: Command)
    requires command.Register() in b.registers && b.registers[command.Register()] != command.value
    requires var (after, outcome) := ExecuteControlChange(b, command);
             Kept(b.registers, after.registers, command, outcome)
    ensures var end := ExecuteControlChange(b, command);
            RaisedWith(end, command.Register(), command.value) <==> end.1 == Raised && end.0.registers != b.registers
  {
    hide ExecuteControlChange, AllowedPrevious;
    var after := ExecuteControlChange(b, command).0.registers;
    if after[command.Register()] == b.registers[command.Register()] {
      assert after == b.registers by {
        forall a | a in after ensures a in b.registers && after[a] == b.registers[a] {}
        forall a | a in b.registers ensures a in after {}
      }
    }
  }

  /** After an acknowledged write and readback the wait runs on the fates from the sixth on. */
  lemma WaitAfterWrite(b: Bus, command: Command, previous: int, baseline: FanPower)
    requires command.Register() in b.registers && previous != command.value
    ensures var start := Drop(b, 3);
            var written := start.(registers := b.registers[command.Register() := command.value]);
            RaisedWith(Confirmed(Drop(written, 2), command, previous, baseline), command.Register(), command.value) <==>
            WaitFails(Drop(b, 5), baseline, Drop(b, 5).clock + EXECUTION_TIMEOUT)
  {
    hide *;
    var start := Drop(b, 3);
    var written := start.(registers := b.registers[command.Register() := command.value]);
    var m, n := Drop(written, 2), Drop(b, 5);
    DropTwice(b, start, written);
    ConfirmedLeaves(m, command, previous, baseline);
    WaitDependsOnFates(m, n, baseline, n.clock + EXECUTION_TIMEOUT);
  }

  lemma DropTwice(b: Bus, start: Bus, written: Bus)
    requires start == Drop(b, 3) && written.fates == start.fates && written.clock == start.clock
    ensures Drop(written, 2).fates == Drop(b, 5).fates && Drop(written, 2).clock == Drop(b, 5).clock
    ensures Drop(written, 2).registers == written.registers && start.registers == b.registers
  {
    ElapsedAfter(b, 3, 2);
    SameElapsed(written, start, 2);
    hide Elapsed;
  }

  /** It also happens without any failed reading: the write lands and its answer is lost to
      an exception that is no ModbusError. */
  lemma LostAnswerLeavesTarget()
    ensures var fine := Fine(0, 10);
            var b := Bus(map[SPEED_REGISTER := 1], 0, [fine, fine, fine, Fault(0, true, Unexpected)]);
            var (after, outcome) := ExecuteControlChange(b, RawCommand(Speed, 2));
            outcome == Raised && after.registers != b.registers
  {
    var fine := Fine(0, 10);
    var b := Bus(map[SPEED_REGISTER := 1], 0, [fine, fine, fine, Fault(0, true, Unexpected)]);
    assert LeavesTarget(b, RawCommand(Speed, 2));
    hide LeavesTarget;
    RaisedChangedExactly(b, RawCommand(Speed, 2));
  }
}
