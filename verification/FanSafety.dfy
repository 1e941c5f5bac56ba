/** Safety of the fan actuation stack over every run and every script of fates:
    what the service reports about the outputs is what the DAC registers hold, and
    after a recorded failure nothing is applied before a recovery has written zero
    to both channels. */
module FanSafety {
  import opened Common
  import opened FanStack

  // ----- reading the journal

  /** A failure stands: none of the later entries completed a recovery. */
  predicate Locked(journal: seq<Entry>) {
    if journal == [] then true
    else match journal[|journal| - 1]
      case Began(trusted) => !trusted
      case FailureRecorded => true
      case RecoveryDone => false
      case Landed(_, _, _) => Locked(journal[..|journal| - 1])
  }

  /** The last two entries are zero writes to the two channels. */
  predicate EndsWithZeros(journal: seq<Entry>) {
    var n := |journal|;
    && n >= 2
    && journal[n - 2].Landed? && journal[n - 2].register == Supply && journal[n - 2].word == 0
    && journal[n - 1].Landed? && journal[n - 1].register == Extract && journal[n - 1].word == 0
  }

  predicate IsApply(e: Entry) {
    e.Landed? && e.cause == Applying
  }

  predicate NoFailure(journal: seq<Entry>) {
    forall k :: 0 <= k < |journal| ==> journal[k] != FailureRecorded
  }

  /** No apply landed while a failure stood, every recovery zeroed both channels, and the
      service began before its first failure. */
  predicate SafeJournal(journal: seq<Entry>) {
    if journal == [] then true
    else
      var front, last := journal[..|journal| - 1], journal[|journal| - 1];
      && SafeJournal(front)
      && (IsApply(last) ==> !Locked(front))
      && (last.RecoveryDone? ==> EndsWithZeros(front))
      && (last.Began? ==> NoFailure(front))
  }

  /** A recovery has completed and nothing has been applied since. */
  predicate Quiet(journal: seq<Entry>) {
    if journal == [] then false
    else
      var last := journal[|journal| - 1];
      last.RecoveryDone? || (!IsApply(last) && Quiet(journal[..|journal| - 1]))
  }

  predicate Zeroed(dac: Dac) {
    dac.supply == 0 && dac.extract == 0
  }

  predicate QuietIsZero(b: Bench) {
    Quiet(b.journal) ==> Zeroed(b.dac)
  }

  lemma NoteUnfolds(j: seq<Entry>, e: Entry)
    ensures (j + [e])[..|j|] == j && (j + [e])[|j|] == e
  {
  }

  /** The step kept the verdict, the safety of the journal and the zero outputs. */
  ghost predicate Calm(b: Bench, b': Bench) {
    && Locked(b'.journal) == Locked(b.journal)
    && (SafeJournal(b.journal) ==> SafeJournal(b'.journal))
    && (QuietIsZero(b) ==> QuietIsZero(b'))
    && (Quiet(b'.journal) ==> Quiet(b.journal))
    && (NoFailure(b.journal) ==> NoFailure(b'.journal))
  }

  lemma LandIsCalm(b: Bench, register: Register, word: int, cause: Cause)
    requires cause == Applying ==> !Locked(b.journal)
    requires cause == Applying || register == Range || word == 0
    ensures Calm(b, Land(b, register, word, cause))
  {
    NoteUnfolds(b.journal, Landed(register, word, cause));
  }

  lemma WriteIsCalm(b: Bench, register: Register, word: int, cause: Cause)
    requires cause == Applying ==> !Locked(b.journal)
    requires cause == Applying || register == Range || word == 0
    ensures Calm(b, WriteWord(b, register, word, cause).0)
  {
    hide Locked, SafeJournal, Quiet, NoFailure;
    LandIsCalm(Later(b), register, word, cause);
  }

  lemma SetVoltageIsCalm(b: Bench, channel: Register, volts: real, cause: Cause)
    requires cause == Applying ==> !Locked(b.journal)
    requires cause == Applying || volts == 0.0
    ensures Calm(b, SetVoltage(b, channel, volts, cause).0)
  {
    EndsAreExact();
    WriteIsCalm(b, channel, VoltageToWord(volts), cause);
  }

  /** Both channels, calmly; when done, the registers hold the words that were asked for. */
  lemma SetBothWrites(b: Bench, supply: real, extract: real, cause: Cause)
    requires cause == Applying ==> !Locked(b.journal)
    requires cause == Applying || (supply == 0.0 && extract == 0.0)
    ensures var (after, r) := SetBothChannels(b, supply, extract, cause);
            && Calm(b, after)
            && (r.Ack? ==>
                  && InRange(supply) && InRange(extract)
                  && after.dac == b.dac.(supply := VoltageToWord(supply), extract := VoltageToWord(extract))
                  && (supply == 0.0 && extract == 0.0 ==> EndsWithZeros(after.journal)))
  {
    hide Locked, SafeJournal, Quiet, NoFailure, VoltageToWord;
    EndsAreExact();
    SetVoltageIsCalm(b, Supply, supply, cause);
    SetVoltageIsCalm(SetVoltage(b, Supply, supply, cause).0, Extract, extract, cause);
  }

  /** A complete start leaves the 10 V range and zero on both channels. */
  lemma StartZeroes(b: Bench)
    ensures var (after, r) := StartDac(b);
            && Calm(b, after)
            && (r.Ack? ==> after.dac == Dac(RANGE_10V, 0, 0) && EndsWithZeros(after.journal))
  {
    hide Locked, SafeJournal, Quiet, NoFailure, SetBothChannels, VoltageToWord;
    EndsAreExact();
    var b1 := Probe(b).0;
    WriteIsCalm(b1, Range, RANGE_10V, Starting);
    var b2 := WriteWord(b1, Range, RANGE_10V, Starting).0;
    SetBothWrites(b2, 0.0, 0.0, Starting);
  }

  // ----- requests

  /** The proxy calls itself ready only while the running actuator is ready too. */
  predicate Coupled(g: Rig) {
    g.ready && g.worker.Running? ==> g.worker.actuatorReady
  }

  lemma AliveChangesNothing(g: Rig)
    ensures var (g', alive) := CheckAlive(g);
            && g'.bench.dac == g.bench.dac && g'.bench.journal == g.bench.journal && g'.ready == g.ready
            && (alive ==> g'.worker == g.worker && g.worker.Running?)
            && (!alive ==> g'.worker.Absent?)
  {
  }

  lemma StartWorkerZeroes(g: Rig)
    ensures var (g', started) := StartWorker(g);
            && Calm(g.bench, g'.bench) && Coupled(g') && g'.worker.Running? == started
            && (!started ==> !g'.ready)
            && (g'.ready ==> Zeroed(g'.bench.dac))
  {
    hide Locked, SafeJournal, Quiet, NoFailure, StartDac;
    StartZeroes(Later(g.bench));
  }

  /** What a request has achieved when it is done. */
  ghost predicate Achieved(g: Rig, g': Rig, command: Command) {
    match command
    case DoApply(supply, extract) =>
      InRange(supply) && InRange(extract) &&
      g'.bench.dac.supply == VoltageToWord(supply) && g'.bench.dac.extract == VoltageToWord(extract)
    case DoStop => g.ready && Coupled(g) ==> Zeroed(g'.bench.dac) && EndsWithZeros(g'.bench.journal)
    case DoHealth => g'.bench.dac == g.bench.dac
    case DoRecover => Zeroed(g'.bench.dac) && EndsWithZeros(g'.bench.journal)
  }

  lemma ExecuteAchieves(b: Bench, ready: bool, command: Command)
    requires command.DoApply? ==> !Locked(b.journal)
    ensures var (after, ready', r) := Execute(b, ready, command);
            && Calm(b, after)
            && (r.Ack? && (ready || command.DoApply? || command.DoRecover?) ==> ready')
            && (r.Ack? ==>
                  match command
                  case DoApply(supply, extract) =>
                    InRange(supply) && InRange(extract) &&
                    after.dac.supply == VoltageToWord(supply) && after.dac.extract == VoltageToWord(extract)
                  case DoStop => ready ==> Zeroed(after.dac) && EndsWithZeros(after.journal)
                  case DoHealth => after.dac == b.dac
                  case DoRecover => Zeroed(after.dac) && EndsWithZeros(after.journal))
  {
    hide Locked, SafeJournal, Quiet, NoFailure, SetBothChannels, StartDac, VoltageToWord;
    EndsAreExact();
    match command
    case DoApply(supply, extract) => SetBothWrites(b, supply, extract, Applying);
    case DoStop => SetBothWrites(b, 0.0, 0.0, Stopping);
    case DoHealth =>
    case DoRecover => StartZeroes(b);
  }

  lemma AskAchieves(g: Rig, command: Command)
    requires g.worker.Running?
    requires command.DoApply? ==> !Locked(g.bench.journal)
    requires command.DoApply? || command.DoRecover? || (g.ready && Coupled(g))
    ensures var (g', done) := Ask(g, command);
            && Calm(g.bench, g'.bench) && Coupled(g') && (done ==> Achieved(g, g', command))
            && g'.ready == done && (done ==> g'.worker.Running?)
  {
    hide Locked, SafeJournal, Quiet, NoFailure, Execute, VoltageToWord;
    ExecuteAchieves(g.bench, g.worker.actuatorReady, command);
  }

  /** A request keeps the layers coupled; when done it achieved its command on the
      registers, and a command other than recover is never done by a fresh worker.  The
      proxy calls itself ready afterwards exactly when the request was done. */
  lemma RequestAchieves(g: Rig, command: Command)
    requires command.DoApply? ==> !Locked(g.bench.journal)
    requires command.DoApply? || command.DoRecover? || (g.ready && Coupled(g))
    ensures var (g', done) := Request(g, command);
            && Calm(g.bench, g'.bench) && Coupled(g') && (done ==> Achieved(g, g', command))
            && (!CheckAlive(g).1 && command != DoRecover ==> !done)
            && g'.ready == done && (done ==> g'.worker.Running?)
  {
    hide Locked, SafeJournal, Quiet, NoFailure, Ask, StartWorker, CheckAlive, VoltageToWord;
    AliveChangesNothing(g);
    var (g1, alive) := CheckAlive(g);
    if alive {
      AskAchieves(g1, command);
    } else {
      StartWorkerZeroes(g1.(ready := false));
      var (g2, started) := StartWorker(g1.(ready := false));
      if started && command == DoRecover { AskAchieves(g2, command); }
    }
  }

  /** A probe that fails with an error leaves the worker running; one that gets no answer
      in time ends it. */
  lemma FailedProbe(g: Rig)
    requires g.worker.Running? && NextFate(g.bench).Fine? && NextFate(Later(g.bench)).Trouble?
    ensures var (g', done) := Request(g, DoHealth);
            !done && (g'.worker.Absent? <==>
                        NextFate(Later(g.bench)).silent || NextFate(Later(Later(g.bench))).Trouble?)
  {
  }

  // ----- the service's claims

  /** Outputs reported as known are the outputs: both registers hold the words of the
      reported set points. */
  ghost predicate Truthful(s: System) {
    s.svc.known ==>
      var sp := s.svc.setpoints;
      && InRange(sp.supply) && InRange(sp.extract)
      && s.rig.bench.dac.supply == VoltageToWord(sp.supply)
      && s.rig.bench.dac.extract == VoltageToWord(sp.extract)
  }

  ghost predicate Recorded(s: System) {
    && s.svc.recovery == Locked(s.rig.bench.journal)
    && SafeJournal(s.rig.bench.journal)
    && QuietIsZero(s.rig.bench)
  }

  /** The invariant of every operation boundary. */
  ghost predicate Coherent(s: System) {
    && s.svc.threshold >= 1
    && Truthful(s) && Recorded(s) && Coupled(s.rig)
    && (s.svc.known <==> !s.svc.recovery)
    && (s.svc.mode == FAULT <==> s.svc.alarm.Some?)
    && (s.svc.failures > 0 <==> s.svc.recovery)
    && (s.svc.failures >= s.svc.threshold ==> s.svc.mode == FAULT)
    && (s.svc.alarm.Some? ==> s.svc.recovery)
    && (!s.svc.recovery ==> (s.svc.mode == STOP <==> s.svc.setpoints == STOPPED))
    && (!s.svc.recovery && Quiet(s.rig.bench.journal) ==> s.svc.mode == STOP)
  }

  /** The worker died between the three reads of the ready property in the constructor:
      outputs are rightly known to be zero while a fault is shown. */
  ghost predicate BirthRace(s: System) {
    && s.svc.threshold >= 1
    && Truthful(s) && Recorded(s) && s.rig.worker.Absent?
    && s.svc.known && s.svc.setpoints == STOPPED
    && s.svc.mode == FAULT && s.svc.alarm.Some? && s.svc.failures == s.svc.threshold
    && !Quiet(s.rig.bench.journal)
  }

  /** The rig as the constructor of the proxy leaves it. */
  ghost predicate FreshRig(g: Rig) {
    exists b: Bench :: b.journal == [] && StartWorker(Rig(b, Absent, false)) == (g, true)
  }

  /** The ready property as the constructor of the service reads it first and last. */
  function FirstRead(g: Rig): bool {
    IsReady(g).1
  }

  function LastRead(g: Rig): bool {
    IsReady(IsReady(IsReady(g).0).0).1
  }

  lemma FreshRigIsZero(g: Rig)
    requires FreshRig(g)
    ensures Coupled(g) && g.worker.Running? && (g.ready ==> Zeroed(g.bench.dac))
    ensures SafeJournal(g.bench.journal) && QuietIsZero(g.bench) && !Quiet(g.bench.journal)
    ensures NoFailure(g.bench.journal)
  {
    var b: Bench :| b.journal == [] && StartWorker(Rig(b, Absent, false)) == (g, true);
    hide StartWorker;
    StartWorkerZeroes(Rig(b, Absent, false));
  }

  lemma BeginUnfolds(b: Bench, trusted: bool)
    requires SafeJournal(b.journal) && QuietIsZero(b) && !Quiet(b.journal) && NoFailure(b.journal)
    ensures var after := Note(b, Began(trusted));
            Locked(after.journal) == !trusted && SafeJournal(after.journal) && !Quiet(after.journal)
  {
    NoteUnfolds(b.journal, Began(trusted));
  }

  /** Once not ready, the property stays so: nothing starts a worker between reads. */
  lemma ReadsOnlyFall(g: Rig)
    ensures var (g', ready) := IsReady(g);
            && g'.bench.dac == g.bench.dac && g'.bench.journal == g.bench.journal && g'.ready == g.ready
            && (g'.worker == g.worker || g'.worker.Absent?)
            && (ready ==> g' == g.(bench := g'.bench) && g.ready && g.worker.Running?)
            && (!ready ==> !IsReady(g').1)
            && (g.ready && !ready ==> g'.worker.Absent?)
  {
  }

  /** The claims hold from the start exactly when the worker survives the construction
      or was not ready to begin with; otherwise the birth race is the state. */
  lemma ConstructIsCoherent(g: Rig, policy: Policy, threshold: nat)
    requires FreshRig(g) && threshold >= 1
    ensures var s := Construct(g, policy, threshold);
            && (Coherent(s) <==> FirstRead(g) == LastRead(g))
            && (Coherent(s) || BirthRace(s))
  {
    hide Locked, SafeJournal, Quiet, NoFailure, VoltageToWord, IsReady, FreshRig;
    FreshRigIsZero(g);
    EndsAreExact();
    ReadsOnlyFall(g);
    var (g1, first) := IsReady(g);
    ReadsOnlyFall(g1);
    var (g2, second) := IsReady(g1);
    ReadsOnlyFall(g2);
    BeginUnfolds(IsReady(g2).0.bench, second);
  }

  lemma FailureIsCoherent(s: System, immediate: bool)
    requires s.svc.threshold >= 1 && Coupled(s.rig)
    requires SafeJournal(s.rig.bench.journal) && QuietIsZero(s.rig.bench)
    requires s.svc.mode == FAULT <==> s.svc.alarm.Some?
    requires s.svc.failures >= s.svc.threshold ==> s.svc.mode == FAULT
    ensures Coherent(RecordFailure(s, immediate))
  {
    NoteUnfolds(s.rig.bench.journal, FailureRecorded);
  }

  lemma RecoveryIsCoherent(s: System)
    requires s.svc.threshold >= 1 && Coupled(s.rig)
    requires SafeJournal(s.rig.bench.journal) && Zeroed(s.rig.bench.dac) && EndsWithZeros(s.rig.bench.journal)
    ensures Coherent(CompleteRecovery(s))
    ensures CompleteRecovery(s).svc.mode == STOP && Zeroed(CompleteRecovery(s).rig.bench.dac)
  {
    EndsAreExact();
    hide VoltageToWord;
    NoteUnfolds(s.rig.bench.journal, RecoveryDone);
  }

  lemma ReportChangesNothing(s: System)
    ensures var (after, state) := Report(s);
            && after.svc == s.svc && after.rig.bench.dac == s.rig.bench.dac
            && after.rig.bench.journal == s.rig.bench.journal && after.rig.ready == s.rig.ready
            && (after.rig.worker == s.rig.worker || after.rig.worker.Absent?)
            && (Coherent(s) ==> Coherent(after))
            && state.outputStateKnown == s.svc.known && state.setpoints == s.svc.setpoints && state.mode == s.svc.mode
  {
    hide Locked, SafeJournal, Quiet, NoFailure, VoltageToWord;
    AliveChangesNothing(s.rig);
  }

  lemma SetManualKeepsClaims(s: System, supply: real, extract: real)
    requires Coherent(s)
    ensures Coherent(SetManual(s, supply, extract).0)
  {
    hide Locked, SafeJournal, Quiet, NoFailure, VoltageToWord, Request, CheckAlive, Report;
    AliveChangesNothing(s.rig);
    var (g, ready) := IsReady(s.rig);
    if AcceptableVoltage(s.svc.policy, supply) && AcceptableVoltage(s.svc.policy, extract) && !s.svc.recovery && ready {
      RequestAchieves(g, DoApply(supply, extract));
      var (g', done) := Request(g, DoApply(supply, extract));
      if !done {
        FailureIsCoherent(s.(rig := g'), true);
      } else {
        ApplyEndsQuiet(g, supply, extract);
        var sp := Setpoints(supply, extract);
        ReportChangesNothing(System(g', s.svc.(
            setpoints := sp, mode := if sp == STOPPED then STOP else MANUAL, known := true)));
      }
    }
  }

  /** How a failed command leaves the service. */
  function Failed(svc: Service): Service {
    svc.(known := false, recovery := true, failures := svc.failures + 1, mode := FAULT, alarm := Some(svc.failures + 1))
  }

  /** set_manual outcome by outcome: when each occurs, and the new state.  A report of
      success means the words of this request are in the registers; a rejection changes
      nothing; a failure shows at once. */
  lemma SetManualMeaning(s: System, supply: real, extract: real)
    requires Coherent(s) || BirthRace(s)
    ensures var (after, outcome) := SetManual(s, supply, extract);
            var acceptable := && (supply == 0.0 || s.svc.policy.minimum <= supply <= s.svc.policy.maximum)
                              && (extract == 0.0 || s.svc.policy.minimum <= extract <= s.svc.policy.maximum);
            var operational := !s.svc.recovery && IsReady(s.rig).1 && s.svc.alarm.None?;
            && (outcome == BadSetpoint <==> !acceptable)
            && (outcome == HardwareFaultActive <==> acceptable && !operational)
            && (outcome.BadSetpoint? || outcome.HardwareFaultActive? ==>
                  after.svc == s.svc && after.rig.bench.dac == s.rig.bench.dac &&
                  after.rig.bench.journal == s.rig.bench.journal)
            && (outcome == CommandFailed ==> after.svc == Failed(s.svc))
            && (outcome.Reported? ==>
                  && after.rig.bench.dac.supply == VoltageToWord(supply)
                  && after.rig.bench.dac.extract == VoltageToWord(extract)
                  && after.svc == s.svc.(setpoints := Setpoints(supply, extract), known := true,
                                         mode := if supply == 0.0 && extract == 0.0 then STOP else MANUAL)
                  && outcome.state.setpoints == Setpoints(supply, extract) && outcome.state.outputStateKnown)
  {
    hide Locked, SafeJournal, Quiet, NoFailure, VoltageToWord, Request, CheckAlive, Report;
    AliveChangesNothing(s.rig);
    var (g, ready) := IsReady(s.rig);
    if !s.svc.recovery && ready && s.svc.alarm.None? {
      RequestAchieves(g, DoApply(supply, extract));
      var g' := Request(g, DoApply(supply, extract)).0;
      var sp := Setpoints(supply, extract);
      ReportChangesNothing(System(g', s.svc.(
          setpoints := sp, mode := if sp == STOPPED then STOP else MANUAL, known := true)));
    }
  }

  /** An apply that is done has landed, so the outputs are not quiet any more. */
  lemma ApplyEndsQuiet(g: Rig, supply: real, extract: real)
    requires Request(g, DoApply(supply, extract)).1
    ensures !Quiet(Request(g, DoApply(supply, extract)).0.bench.journal)
  {
    var (g1, _) := CheckAlive(g);
    var b := g1.bench;
    var (mid, _) := SetVoltage(b, Supply, supply, Applying);
    NoteUnfolds(mid.journal, Landed(Extract, VoltageToWord(extract), Applying));
    hide VoltageToWord, StartWorker, Quiet;
    assert SetVoltage(mid, Extract, extract, Applying).1.Ack?;
    LandedApplyIsNotQuiet(Later(mid), VoltageToWord(extract));
  }

  lemma LandedApplyIsNotQuiet(b: Bench, word: int)
    ensures !Quiet(Land(b, Extract, word, Applying).journal)
  {
    NoteUnfolds(b.journal, Landed(Extract, word, Applying));
  }

  /** The common part of stop and health_check, from any state the service can be in. */
  lemma RecoverOrAchieves(s: System, command: Command)
    requires Coherent(s) || BirthRace(s)
    requires command == DoStop || command == DoHealth
    ensures var (mid, operational, done) := RecoverOr(s, command);
            && mid.svc == s.svc && Coupled(mid.rig) && Calm(s.rig.bench, mid.rig.bench)
            && (operational ==> Coherent(s) && !s.svc.recovery)
            && (done && !(operational && command == DoHealth) ==>
                  Zeroed(mid.rig.bench.dac) && EndsWithZeros(mid.rig.bench.journal))
            && (done && operational && command == DoHealth ==> mid.rig.bench.dac == s.rig.bench.dac)
  {
    hide Locked, SafeJournal, Quiet, NoFailure, VoltageToWord, Request, CheckAlive;
    AliveChangesNothing(s.rig);
    var (g, ready) := if s.svc.recovery then (s.rig, false) else IsReady(s.rig);
    RequestAchieves(g, if ready then command else DoRecover);
  }

  lemma StopKeepsClaims(s: System)
    requires Coherent(s) || BirthRace(s)
    ensures Coherent(Stop(s).0)
    ensures Stop(s).1.Reported? ==> Zeroed(Stop(s).0.rig.bench.dac) && Stop(s).0.svc.mode == STOP && Stop(s).0.svc.known
    ensures !Stop(s).1.Reported? ==> Stop(s).0.svc == Failed(s.svc)
  {
    hide Locked, SafeJournal, Quiet, NoFailure, VoltageToWord, RecoverOr, Report;
    RecoverOrAchieves(s, DoStop);
    var (mid, _, done) := RecoverOr(s, DoStop);
    if !done {
      FailureIsCoherent(mid, true);
    } else {
      RecoveryIsCoherent(mid);
      ReportChangesNothing(CompleteRecovery(mid));
    }
  }

  lemma HealthCheckKeepsClaims(s: System)
    requires Coherent(s) || BirthRace(s)
    ensures Coherent(HealthCheck(s).0)
  {
    hide Locked, SafeJournal, Quiet, NoFailure, VoltageToWord, RecoverOr, Report;
    RecoverOrAchieves(s, DoHealth);
    var (mid, operational, done) := RecoverOr(s, DoHealth);
    if !done {
      FailureIsCoherent(mid, false);
      ReportChangesNothing(RecordFailure(mid, false));
    } else if !operational {
      RecoveryIsCoherent(mid);
      ReportChangesNothing(CompleteRecovery(mid));
    } else {
      ReportChangesNothing(mid.(svc := mid.svc.(failures := 0, known := true)));
    }
  }

  /** health_check: a failure counts, and shows as a fault from the threshold on; a healthy
      device keeps its set points, mode and outputs; a recovery stops the fans. */
  lemma HealthCheckMeaning(s: System)
    requires Coherent(s)
    ensures var after := HealthCheck(s).0;
            var operational := !s.svc.recovery && IsReady(s.rig).1;
            && (after.svc.recovery ==>
                  && after.svc.failures == s.svc.failures + 1 && after.svc.setpoints == s.svc.setpoints
                  && (after.svc.mode == FAULT <==> s.svc.mode == FAULT || s.svc.failures + 1 >= s.svc.threshold))
            && (!after.svc.recovery && operational ==>
                  after.svc == s.svc.(failures := 0, known := true) && after.rig.bench.dac == s.rig.bench.dac)
            && (!after.svc.recovery && !operational ==>
                  after.svc.mode == STOP && after.svc.setpoints == STOPPED && Zeroed(after.rig.bench.dac))
  {
    hide Locked, SafeJournal, Quiet, NoFailure, VoltageToWord, RecoverOr, Report;
    RecoverOrAchieves(s, DoHealth);
    RecoverOrAsks(s, DoHealth);
    var (mid, operational, done) := RecoverOr(s, DoHealth);
    ReportChangesNothing(RecordFailure(mid, false));
    ReportChangesNothing(CompleteRecovery(mid));
    ReportChangesNothing(mid.(svc := mid.svc.(failures := 0, known := true)));
  }

  lemma RecoverOrAsks(s: System, command: Command)
    ensures RecoverOr(s, command).1 == (!s.svc.recovery && IsReady(s.rig).1)
  {
    hide Request, IsReady;
  }

  // ----- without faults everything works

  lemma NoFaultSetBoth(b: Bench, supply: real, extract: real, cause: Cause)
    requires b.fates == [] && InRange(supply) && InRange(extract)
    ensures SetBothChannels(b, supply, extract, cause).0.fates == []
    ensures SetBothChannels(b, supply, extract, cause).1 == Ack
  {
    hide VoltageToWord;
  }

  lemma NoFaultStart(b: Bench)
    requires b.fates == []
    ensures StartDac(b).0.fates == [] && StartDac(b).1 == Ack
  {
    hide SetBothChannels;
    NoFaultSetBoth(WriteWord(Probe(b).0, Range, RANGE_10V, Starting).0, 0.0, 0.0, Starting);
  }

  /** A rig on which commands work. */
  predicate InService(g: Rig) {
    g.ready && g.worker == Running(true) && g.bench.fates == []
  }

  lemma NoFaultAsk(g: Rig, command: Command)
    requires g.bench.fates == [] && g.worker.Running?
    requires command.DoApply? ==> g.worker.actuatorReady && InRange(command.supply) && InRange(command.extract)
    requires command.DoStop? || command.DoHealth? ==> g.worker.actuatorReady
    ensures InService(Ask(g, command).0) && Ask(g, command).1
  {
    hide SetBothChannels, StartDac;
    match command
    case DoApply(supply, extract) => NoFaultSetBoth(g.bench, supply, extract, Applying);
    case DoStop => NoFaultSetBoth(g.bench, 0.0, 0.0, Stopping);
    case DoHealth =>
    case DoRecover => NoFaultStart(g.bench);
  }

  lemma NoFaultRequest(g: Rig, command: Command)
    requires g.bench.fates == []
    requires command.DoRecover? || (g.worker == Running(true))
    requires command.DoApply? ==> InRange(command.supply) && InRange(command.extract)
    ensures InService(Request(g, command).0) && Request(g, command).1
  {
    hide Ask, StartDac;
    if g.worker.Running? {
      NoFaultAsk(g, command);
    } else {
      NoFaultStart(g.bench);
      NoFaultAsk(StartWorker(g.(ready := false)).0, DoRecover);
    }
  }

  /** When the faults end, stop and health_check succeed from any reachable state, and
      after either every acceptable set_manual takes effect. */
  lemma ServiceReturnsAfterFaults(s: System, stop: bool, supply: real, extract: real)
    requires (Coherent(s) || BirthRace(s)) && s.rig.bench.fates == []
    requires AcceptableVoltage(s.svc.policy, supply) && InRange(supply)
    requires AcceptableVoltage(s.svc.policy, extract) && InRange(extract)
    ensures var (mid, first) := if stop then Stop(s) else HealthCheck(s);
            && first.Reported? && first.state.hardwareReady && mid.svc.known
            && SetManual(mid, supply, extract).1.Reported?
  {
    var command := if stop then DoStop else DoHealth;
    var (r, operational, done) := RecoverOr(s, command);
    FaultFreeRecoverOr(s, command);
    RecoverOrAchieves(s, command);
    hide Locked, SafeJournal, Quiet, NoFailure, VoltageToWord, RecoverOr, Request, Recorded, Truthful;
    var mid := (if stop then Stop(s) else HealthCheck(s)).0;
    assert InService(mid.rig) && mid.svc.known && !mid.svc.recovery && mid.svc.alarm.None?;
    assert mid.svc.policy == s.svc.policy;
    NoFaultRequest(mid.rig, DoApply(supply, extract));
  }

  lemma FaultFreeRecoverOr(s: System, command: Command)
    requires Coherent(s) || BirthRace(s)
    requires s.rig.bench.fates == [] && (command == DoStop || command == DoHealth)
    ensures InService(RecoverOr(s, command).0.rig) && RecoverOr(s, command).2
  {
    hide Request, Recorded, Truthful;
    var ready := !s.svc.recovery && IsReady(s.rig).1;
    NoFaultRequest(IsReady(s.rig).0, if ready then command else DoRecover);
  }

  // ----- whole runs

  lemma OperateKeepsClaims(s: System, op: Operation)
    requires Coherent(s)
    ensures Coherent(Operate(s, op).0)
  {
    hide Coherent, SetManual, Stop, HealthCheck, Report;
    match op
    case OpSetManual(supply, extract) => SetManualKeepsClaims(s, supply, extract);
    case OpStop => StopKeepsClaims(s);
    case OpHealthCheck => HealthCheckKeepsClaims(s);
    case OpState => ReportChangesNothing(s);
  }

  /** In every reachable state of every run the service's claims hold. */
  lemma {:induction false} RunKeepsClaims(s: System, ops: seq<Operation>)
    requires Coherent(s)
    ensures Coherent(Run(s, ops))
    decreases ops
  {
    hide Coherent, Operate;
    if ops != [] {
      OperateKeepsClaims(s, ops[0]);
      RunKeepsClaims(Operate(s, ops[0]).0, ops[1..]);
    }
  }

  /** The operations that leave the birth race alone. */
  predicate Passive(op: Operation) {
    op.OpSetManual? || op.OpState?
  }

  /** The birth race survives set_manual, which it rejects, and state; the first stop or
      health_check ends it. */
  lemma BirthRaceEnds(s: System, op: Operation)
    requires BirthRace(s)
    ensures if Passive(op) then Operate(s, op).0 == s && (op.OpSetManual? ==> !Operate(s, op).1.Reported?)
            else Coherent(Operate(s, op).0)
  {
    hide Locked, SafeJournal, Quiet, NoFailure, VoltageToWord, Stop, HealthCheck;
    match op
    case OpSetManual(_, _) =>
    case OpStop => StopKeepsClaims(s);
    case OpHealthCheck => HealthCheckKeepsClaims(s);
    case OpState =>
  }

  lemma {:induction false} RunFromBirth(s: System, ops: seq<Operation>)
    requires Coherent(s) || BirthRace(s)
    ensures Coherent(Run(s, ops)) || BirthRace(Run(s, ops))
    ensures Coherent(s) ==> Coherent(Run(s, ops))
    ensures BirthRace(s) && (exists k :: 0 <= k < |ops| && !Passive(ops[k])) ==> Coherent(Run(s, ops))
    decreases ops
  {
    hide Coherent, BirthRace, Operate;
    if Coherent(s) {
      RunKeepsClaims(s, ops);
    } else if ops != [] {
      BirthRaceEnds(s, ops[0]);
      RunFromBirth(Operate(s, ops[0]).0, ops[1..]);
      if Passive(ops[0]) && (exists k :: 0 <= k < |ops| && !Passive(ops[k])) {
        var k :| 0 <= k < |ops| && !Passive(ops[k]);
        assert !Passive(ops[1..][k - 1]);
      }
    }
  }

  // ----- what the service answers

  /** What an answered state says is so afterwards: it is the service's own mode, set
      points, failures and alarm; and the hardware is ready exactly when the outputs are
      known, the proxy's flag is up and a live worker is behind it. */
  ghost predicate Tells(s: System, state: CoreState) {
    && state.mode == s.svc.mode && state.setpoints == s.svc.setpoints
    && state.failures == s.svc.failures && state.alarm == s.svc.alarm && state.outputStateKnown == s.svc.known
    && (state.hardwareReady <==> s.svc.known && s.rig.ready && s.rig.worker.Running?)
  }

  lemma ReportTells(s: System)
    requires Coherent(s) || BirthRace(s)
    ensures Tells(Report(s).0, Report(s).1)
    ensures Report(s).1.hardwareReady ==> Report(s).0.svc.known
  {
    hide Recorded, Truthful;
  }

  /** An answer to any operation tells; after a failed command it is never ready. */
  lemma AnswerTells(s: System, op: Operation)
    requires Coherent(s) || BirthRace(s)
    ensures var (after, outcome) := Operate(s, op);
            && (op.OpHealthCheck? || op.OpState? ==> outcome.Reported?)
            && (outcome.Reported? ==>
                  && Tells(after, outcome.state)
                  && (after.svc.failures > s.svc.failures ==> !outcome.state.hardwareReady))
  {
    hide Coherent, BirthRace, Tells, Report, SetManual, Stop, HealthCheck;
    match op
    case OpSetManual(supply, extract) =>
      if SetManual(s, supply, extract).1.Reported? {
        var mid := ManualReports(s, supply, extract);
        ReportTells(mid);
        FailureIsUnknown(s, op);
      }
    case OpStop =>
      if Stop(s).1.Reported? {
        var mid := StopReports(s);
        ReportTells(mid);
        FailureIsUnknown(s, op);
      }
    case OpHealthCheck =>
      var mid := CheckReports(s);
      ReportTells(mid);
      FailureIsUnknown(s, op);
    case OpState =>
      ReportTells(s);
      ReportChangesNothing(s);
  }

  lemma ManualReports(s: System, supply: real, extract: real) returns (mid: System)
    requires (Coherent(s) || BirthRace(s)) && SetManual(s, supply, extract).1.Reported?
    ensures Coherent(mid) && (SetManual(s, supply, extract).0, SetManual(s, supply, extract).1.state) == Report(mid)
  {
    hide Locked, SafeJournal, Quiet, NoFailure, VoltageToWord, Request, CheckAlive, Report;
    AliveChangesNothing(s.rig);
    var g := IsReady(s.rig).0;
    RequestAchieves(g, DoApply(supply, extract));
    ApplyEndsQuiet(g, supply, extract);
    var sp := Setpoints(supply, extract);
    mid := System(Request(g, DoApply(supply, extract)).0, s.svc.(
      setpoints := sp, mode := if sp == STOPPED then STOP else MANUAL, known := true));
  }

  lemma StopReports(s: System) returns (mid: System)
    requires (Coherent(s) || BirthRace(s)) && Stop(s).1.Reported?
    ensures Coherent(mid) && (Stop(s).0, Stop(s).1.state) == Report(mid)
  {
    hide Locked, SafeJournal, Quiet, NoFailure, VoltageToWord, RecoverOr, Report;
    RecoverOrAchieves(s, DoStop);
    mid := CompleteRecovery(RecoverOr(s, DoStop).0);
    RecoveryIsCoherent(RecoverOr(s, DoStop).0);
  }

  lemma CheckReports(s: System) returns (mid: System)
    requires Coherent(s) || BirthRace(s)
    ensures Coherent(mid) && HealthCheck(s).1.Reported?
    ensures (HealthCheck(s).0, HealthCheck(s).1.state) == Report(mid)
  {
    hide Locked, SafeJournal, Quiet, NoFailure, VoltageToWord, RecoverOr, Report;
    RecoverOrAchieves(s, DoHealth);
    var (r, operational, done) := RecoverOr(s, DoHealth);
    if !done {
      mid := RecordFailure(r, false);
      FailureIsCoherent(r, false);
    } else if !operational {
      mid := CompleteRecovery(r);
      RecoveryIsCoherent(r);
    } else {
      mid := r.(svc := r.svc.(failures := 0, known := true));
    }
  }

  /** A failure of this operation leaves the outputs unknown. */
  lemma FailureIsUnknown(s: System, op: Operation)
    requires Coherent(s) || BirthRace(s)
    ensures Operate(s, op).0.svc.failures > s.svc.failures ==> !Operate(s, op).0.svc.known
  {
    hide Request, Recorded, Truthful, Coupled, IsReady;
  }

  /** From construction on, whatever the fates: outputs reported as known are what the
      registers hold, within half a DAC step of the reported set points. */
  lemma KnownOutputsAreReal(g: Rig, policy: Policy, threshold: nat, ops: seq<Operation>)
    requires FreshRig(g) && threshold >= 1
    ensures var s := Run(Construct(g, policy, threshold), ops);
            var half := FULL_SCALE / (MAX_CODE as real) / 2.0;
            s.svc.known ==>
              && s.rig.bench.dac.supply == VoltageToWord(s.svc.setpoints.supply)
              && s.rig.bench.dac.extract == VoltageToWord(s.svc.setpoints.extract)
              && -half <= WordToVoltage(s.rig.bench.dac.supply) - s.svc.setpoints.supply <= half
              && -half <= WordToVoltage(s.rig.bench.dac.extract) - s.svc.setpoints.extract <= half
  {
    ConstructIsCoherent(g, policy, threshold);
    RunFromBirth(Construct(g, policy, threshold), ops);
    var s := Run(Construct(g, policy, threshold), ops);
    hide Run, Construct, FreshRig, VoltageToWord, WordToVoltage, Recorded;
    if s.svc.known {
      WordWithinHalfStep(s.svc.setpoints.supply);
      WordWithinHalfStep(s.svc.setpoints.extract);
    }
  }

  /** Over every run and every script of fates: every answer tells, and an answer after a
      failed command never shows the hardware as ready. */
  lemma EveryAnswerTells(g: Rig, policy: Policy, threshold: nat, ops: seq<Operation>, op: Operation)
    requires FreshRig(g) && threshold >= 1
    ensures var before := Run(Construct(g, policy, threshold), ops);
            var (after, outcome) := Operate(before, op);
            && (op.OpHealthCheck? || op.OpState? ==> outcome.Reported?)
            && (outcome.Reported? ==>
                  && Tells(after, outcome.state)
                  && (after.svc.failures > before.svc.failures ==> !outcome.state.hardwareReady))
  {
    ConstructIsCoherent(g, policy, threshold);
    hide Coherent, BirthRace, Run, Construct, FreshRig, Operate, Tells;
    RunFromBirth(Construct(g, policy, threshold), ops);
    AnswerTells(Run(Construct(g, policy, threshold), ops), op);
  }

  // ----- nothing is applied before a zeroing recovery

  lemma {:induction false} SafePrefix(journal: seq<Entry>, n: nat)
    requires SafeJournal(journal) && n <= |journal|
    ensures SafeJournal(journal[..n])
  {
    if n < |journal| {
      var front := journal[..|journal| - 1];
      SafePrefix(front, n);
      assert front[..n] == journal[..n];
    } else {
      assert journal[..n] == journal;
    }
  }

  lemma SafeAt(journal: seq<Entry>, n: nat)
    requires SafeJournal(journal) && n < |journal|
    ensures IsApply(journal[n]) ==> !Locked(journal[..n])
    ensures journal[n] == RecoveryDone ==> EndsWithZeros(journal[..n])
  {
    SafePrefix(journal, n + 1);
    assert journal[..n + 1][..n] == journal[..n] && journal[..n + 1][n] == journal[n];
  }

  lemma {:induction false} UnlockedByRecovery(journal: seq<Entry>, i: nat)
    requires i < |journal| && journal[i] == FailureRecorded && !Locked(journal) && SafeJournal(journal)
    ensures exists k :: i < k < |journal| && journal[k] == RecoveryDone
  {
    var front, last := journal[..|journal| - 1], journal[|journal| - 1];
    if last == RecoveryDone {
      assert journal[|journal| - 1] == RecoveryDone;
    } else {
      assert front[i] == FailureRecorded;
      UnlockedByRecovery(front, i);
      var k :| i < k < |front| && front[k] == RecoveryDone;
      assert journal[k] == RecoveryDone;
    }
  }

  /** Between a failure and a later apply lies a recovery, directly preceded by zero
      writes to both channels. */
  lemma ApplyNeedsRecovery(journal: seq<Entry>, i: nat, j: nat)
    requires SafeJournal(journal) && i < j < |journal|
    requires journal[i] == FailureRecorded && IsApply(journal[j])
    ensures exists k :: i < k < j && journal[k] == RecoveryDone && EndsWithZeros(journal[..k])
  {
    SafeAt(journal, j);
    SafePrefix(journal, j);
    hide SafeJournal, Locked, EndsWithZeros;
    UnlockedByRecovery(journal[..j], i);
    var k :| i < k < j && journal[..j][k] == RecoveryDone;
    SafeAt(journal, k);
  }

  /** Over every run and every script of fates: no apply reaches the DAC after a recorded
      failure until a recovery has zeroed both channels; and once a recovery is complete
      the outputs stay zero, in mode STOP, until something is applied again. */
  lemma NoApplyBeforeRecovery(g: Rig, policy: Policy, threshold: nat, ops: seq<Operation>, i: nat, j: nat)
    requires FreshRig(g) && threshold >= 1
    ensures var s := Run(Construct(g, policy, threshold), ops);
            var journal := s.rig.bench.journal;
            && (i < j < |journal| && journal[i] == FailureRecorded && IsApply(journal[j]) ==>
                  exists k :: i < k < j && journal[k] == RecoveryDone && EndsWithZeros(journal[..k]))
            && (Quiet(journal) ==> Zeroed(s.rig.bench.dac))
            && (Quiet(journal) && s.svc.known ==> s.svc.mode == STOP && s.svc.setpoints == STOPPED)
  {
    ConstructIsCoherent(g, policy, threshold);
    RunFromBirth(Construct(g, policy, threshold), ops);
    var s := Run(Construct(g, policy, threshold), ops);
    hide Run, Construct, FreshRig, VoltageToWord, Locked, SafeJournal, Quiet, EndsWithZeros;
    var journal := s.rig.bench.journal;
    if i < j < |journal| && journal[i] == FailureRecorded && IsApply(journal[j]) {
      ApplyNeedsRecovery(journal, i, j);
    }
  }
}
