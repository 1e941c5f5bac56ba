/** What the answer of a guarded AERO write says in each of its fields, which exceptions it
    lets through, and which values it accepts, of
    src/ventilation_core/infrastructure/aero_control_executor.py. */
module AeroAnswers {
  import opened Common
  import opened AeroControl
  import opened AeroExecutor
  import opened AeroFaults

  predicate IsPercentage(p: FanPower) {
    0 <= p.fan1 <= 100 && 0 <= p.fan2 <= 100
  }

  /** The five kinds of answer, told apart by their fields.  A power that is recorded is two
      percentages, a readback is the target, a confirmed call has seen another power than
      the baseline, and one that found the target in place counts as recovered. */
  ghost predicate Complete(r: ControlResult, before: map<int, int>) {
    && (r.baseline.Some? ==> IsPercentage(r.baseline.value))
    && (r.observed.Some? ==> IsPercentage(r.observed.value))
    && (r.readback.Some? ==> r.readback.value == r.command.value)
    && (r.baseline.None? <==> !AllowedPrevious(r.command, r.previous))
    && (r.readback.Some? <==> r.observed.Some?)
    && (r.baseline.None? ==> r.readback.None? && r.state == FAILED && !r.recovered)
    && (r.baseline.Some? && r.previous == r.command.value ==>
          r.state == SUCCEEDED && r.recovered && r.readback.Some? && r.observed == r.baseline)
    && (r.baseline.Some? && r.previous != r.command.value && r.readback.Some? ==>
          && (r.state == SUCCEEDED <==> r.observed != r.baseline)
          && (r.state == SUCCEEDED ==> !r.recovered))
    && (r.baseline.Some? && r.readback.None? ==> r.state == FAILED)
  }

  lemma PowerIsPercentage(b: Bus)
    ensures var power := ReadFanPower(b).1; power.Success? ==> IsPercentage(power.value)
  {
  }

  lemma {:induction false} WatchSeesPercentage(b: Bus, baseline: FanPower, deadline: int)
    requires IsPercentage(baseline)
    ensures var seen := Watch(b, baseline, deadline).1; seen.Success? ==> IsPercentage(seen.value)
    decreases deadline - b.clock
  {
    if b.clock < deadline {
      var later := b.(clock := b.clock + POLL_INTERVAL);
      PowerIsPercentage(later);
      ReadTakesTime(later);
      WatchSeesPercentage(ReadFanPower(later).0, baseline, deadline);
    }
  }

  lemma AnswerIsComplete(b: Bus, command: Command)
    ensures var outcome := ExecuteControlChange(b, command).1;
            outcome.Returned? ==> Complete(outcome.result, b.registers)
  {
    hide Changed, Confirmed, ReadFanPower, ReadOne;
    var (b1, read) := ReadOne(b, command.Register());
    if read.Success? && AllowedPrevious(command, read.value) {
      PowerIsPercentage(b1);
      var (b2, power) := ReadFanPower(b1);
      if power.Success? && read.value != command.value {
        ChangedIsComplete(b2, command, read.value, power.value);
      }
    }
  }

  lemma ChangedIsComplete(b: Bus, command: Command, previous: int, baseline: FanPower)
    requires AllowedPrevious(command, previous) && previous != command.value && IsPercentage(baseline)
    ensures var (after, a) := Changed(b, command, previous, baseline);
            var outcome := Concluded((after, a), command).1;
            outcome.Returned? ==> Complete(outcome.result, b.registers)
  {
    hide Restore, WriteOne, ReadOne, Watch;
    var (after, a) := Changed(b, command, previous, baseline);
    if a.Written? {
      WatchSeesPercentage(after, baseline, after.clock + EXECUTION_TIMEOUT);
    }
  }

  // ----- the time of a wait

  /** The next k polls are answered at once and read the baseline. */
  ghost predicate Quiet(b: Bus, baseline: FanPower, k: nat) {
    && |b.fates| >= 2 * k
    && forall i: nat :: i < k ==>
         b.fates[2 * i] == Fine(0, baseline.fan1) && b.fates[2 * i + 1] == Fine(0, baseline.fan2)
  }

  lemma QuietPoll(b: Bus, baseline: FanPower, k: nat)
    requires Quiet(b, baseline, k + 1) && IsPercentage(baseline)
    ensures var (after, power) := ReadFanPower(b.(clock := b.clock + POLL_INTERVAL));
            && power == Success(baseline) && Quiet(after, baseline, k)
            && after == b.(clock := b.clock + 2000, fates := b.fates[2..])
  {
    assert b.fates[2 * 0] == Fine(0, baseline.fan1) && b.fates[2 * 0 + 1] == Fine(0, baseline.fan2);
    var rest := b.fates[2..];
    forall i: nat | i < k ensures rest[2 * i] == Fine(0, baseline.fan1) && rest[2 * i + 1] == Fine(0, baseline.fan2) {
      assert b.fates[2 * (i + 1)] == Fine(0, baseline.fan1) && b.fates[2 * (i + 1) + 1] == Fine(0, baseline.fan2);
    }
  }

  lemma {:induction false} QuietWait(b: Bus, baseline: FanPower, k: nat)
    requires Quiet(b, baseline, k) && IsPercentage(baseline)
    ensures Watch(b, baseline, b.clock + 2000 * k) ==
            (b.(clock := b.clock + 2000 * k, fates := b.fates[2 * k..]), Success(baseline))
    decreases k
  {
    hide *;
    WatchUnfolds(b, baseline, b.clock + 2000 * k);
    if k > 0 {
      QuietPoll(b, baseline, k - 1);
      QuietHasFates(b, baseline, k);
      var b1 := b.(clock := b.clock + 2000, fates := b.fates[2..]);
      QuietWait(b1, baseline, k - 1);
      RestOfRest(b.fates, 2 * (k - 1));
    }
  }

  lemma RestOfRest(fates: seq<Fate>, n: nat)
    requires n + 2 <= |fates|
    ensures fates[2..][n..] == fates[n + 2..]
  {
  }

  lemma QuietHasFates(b: Bus, baseline: FanPower, k: nat)
    requires Quiet(b, baseline, k)
    ensures |b.fates| >= 2 * k
  {
  }

  /** When the fans show the baseline for a whole minute, in thirty polls, the call gives up
      at the end of the minute and puts the previous value back. */
  lemma MinuteOfBaseline(b: Bus, command: Command, previous: int, baseline: FanPower)
    requires command.Register() in b.registers && IsPercentage(baseline)
    requires Quiet(b, baseline, 30) && |b.fates| == 62 && b.fates[60].Fine? && b.fates[61].Fine?
    ensures var (after, outcome) := Confirmed(b, command, previous, baseline);
            && after.registers == b.registers[command.Register() := previous]
            && after.clock == b.clock + 60000 + b.fates[60].wait + b.fates[61].wait
            && outcome.Returned? && outcome.result.state == FAILED && outcome.result.recovered
  {
    QuietWait(b, baseline, 30);
    hide Watch, Quiet;
  }

  // ----- exceptions

  /** No fault of this script is one that the write path does not catch. */
  ghost predicate Calm(b: Bus) {
    forall f :: f in b.fates && f.Fault? ==> f.trouble.Expected?
  }

  lemma CalmStays(b: Bus)
    requires Calm(b)
    ensures Calm(Later(b)) && !Escapes(NextFate(b))
  {
  }

  lemma CalmPower(b: Bus)
    requires Calm(b)
    ensures Calm(ReadFanPower(b).0)
  {
    CalmStays(b);
    CalmStays(Later(b));
    hide Calm, Later, NextFate;
  }

  lemma CalmRestore(b: Bus, address: int, previous: int)
    requires Calm(b)
    ensures Restore(b, address, previous).1.Success?
  {
    CalmStays(b);
    var written := WriteOne(b, address, previous).0;
    assert Calm(written);
    CalmStays(written);
    hide Calm, Later;
  }

  lemma {:induction false} CalmWatch(b: Bus, baseline: FanPower, deadline: int)
    requires Calm(b)
    ensures Calm(Watch(b, baseline, deadline).0)
    decreases deadline - b.clock
  {
    if b.clock < deadline {
      var later := b.(clock := b.clock + POLL_INTERVAL);
      assert Calm(later);
      CalmPower(later);
      ReadTakesTime(later);
      hide Calm, ReadFanPower;
      CalmWatch(ReadFanPower(later).0, baseline, deadline);
    }
  }

  /** When every fault is a ModbusError or a ValueError, a call that gets to its write ends
      with an exception only where it leaves the target in the register: the wait lets a
      failed reading through, the write, the readback and the restore never do. */
  lemma ExpectedFaultsAreCaught(b: Bus, command: Command)
    requires Calm(b) && ReachesWrite(b, command)
    ensures ExecuteControlChange(b, command).1.Raised? <==> LeavesTarget(b, command)
  {
    RaisedChangedExactly(b, command);
    WriteReached(b, command);
    hide LeavesTarget, ExecuteControlChange;
    var b2 := Drop(b, 3);
    assert Calm(b2);
    CalmRaise(b2, command, b.registers[command.Register()], PowerAt(b, 1).value);
    EveryOutcomeIsHonest(b, command);
  }

  lemma CalmRaise(b: Bus, command: Command, previous: int, baseline: FanPower)
    requires Calm(b) && command.Register() in b.registers && b.registers[command.Register()] == previous
    requires previous != command.value
    ensures var (after, outcome) := Concluded(Changed(b, command, previous, baseline), command);
            outcome.Raised? ==> command.Register() in after.registers &&
                                after.registers[command.Register()] == command.value
  {
    var register := command.Register();
    CalmStays(b);
    var (b1, written) := WriteOne(b, register, command.value);
    assert Calm(b1);
    CalmStays(b1);
    CalmRestore(b1, register, previous);
    var (b2, readback) := ReadOne(b1, register);
    CalmRestore(b2, register, previous);
    var deadline := b2.clock + EXECUTION_TIMEOUT;
    CalmWatch(b2, baseline, deadline);
    WatchingChangesNothing(b2, baseline, deadline);
    CalmRestore(Watch(b2, baseline, deadline).0, register, previous);
    hide Calm, Watch, Restore, Later, NextFate;
  }

  // ----- values

  /** Every level from 0 to 3 can be set over every other, and airing both ways: without
      faults such a call confirms its target or restores the previous value. */
  lemma EveryLevelWorks(b: Bus, level: int, airing: int)
    requires Sane(b, LONGEST_CALL) && 1080 in b.registers && 1081 in b.registers
    requires 0 <= level <= 3 && 0 <= b.registers[1080] <= 3
    requires 0 <= airing <= 1 && 0 <= b.registers[1081] <= 1
    ensures var (after, outcome) := ExecuteControlChange(b, RawCommand(Speed, level));
            outcome.Returned? &&
            if outcome.result.state == SUCCEEDED then after.registers == b.registers[1080 := level]
            else after.registers == b.registers
    ensures var (after, outcome) := ExecuteControlChange(b, RawCommand(Airing, airing));
            outcome.Returned? &&
            if outcome.result.state == SUCCEEDED then after.registers == b.registers[1081 := airing]
            else after.registers == b.registers
  {
    LevelWorks(b, RawCommand(Speed, level));
    LevelWorks(b, RawCommand(Airing, airing));
    hide ExecuteControlChange, Sane;
  }

  lemma LevelWorks(b: Bus, command: Command)
    requires Sane(b, LONGEST_CALL) && command.Register() in b.registers
    requires AllowedPrevious(command, b.registers[command.Register()])
    ensures var (after, outcome) := ExecuteControlChange(b, command);
            outcome.Returned? &&
            if outcome.result.state == SUCCEEDED
            then after.registers == b.registers[command.Register() := command.value]
            else after.registers == b.registers
  {
    FaultFreeCallConfirmsOrRestores(b, command);
    EveryOutcomeIsHonest(b, command);
    hide ExecuteControlChange, Sane;
    var after := ExecuteControlChange(b, command).0.registers;
    var register := command.Register();
    assert forall a :: a in after <==> a in b.registers;
    assert forall a :: a in after && a != register ==> after[a] == b.registers[a];
    assert after == b.registers[register := after[register]];
    assert b.registers == b.registers[register := b.registers[register]];
  }
}
