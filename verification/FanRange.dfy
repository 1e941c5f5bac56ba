/** The range register of the DAC: a register word means its voltage only while the 10 V
    range is programmed. */
module FanRange {
  import opened Common
  import opened FanStack
  import opened FanSafety

  /** The 10 V range. */
  predicate TenVolts(b: Bench) {
    b.dac.range == 0x11
  }

  /** The range is the old one or the 10 V range. */
  predicate Steady(b: Bench, b': Bench) {
    b'.dac.range == b.dac.range || TenVolts(b')
  }

  lemma VoltageKeepsRange(b: Bench, channel: Register, volts: real, cause: Cause)
    requires channel != Range
    ensures SetVoltage(b, channel, volts, cause).0.dac.range == b.dac.range
  {
    hide VoltageToWord;
  }

  lemma BothKeepRange(b: Bench, supply: real, extract: real, cause: Cause)
    ensures SetBothChannels(b, supply, extract, cause).0.dac.range == b.dac.range
  {
    VoltageKeepsRange(b, Supply, supply, cause);
    VoltageKeepsRange(SetVoltage(b, Supply, supply, cause).0, Extract, extract, cause);
    hide SetVoltage;
  }

  lemma StartSetsRange(b: Bench)
    ensures var (after, r) := StartDac(b); Steady(b, after) && (r.Ack? ==> TenVolts(after))
  {
    var b2 := WriteWord(Probe(b).0, Range, RANGE_10V, Starting).0;
    BothKeepRange(b2, 0.0, 0.0, Starting);
    hide SetBothChannels;
  }

  /** An actuator that calls itself ready has its range programmed. */
  predicate Programmed(g: Rig) {
    g.worker == Running(true) ==> TenVolts(g.bench)
  }

  lemma ExecuteKeepsRange(b: Bench, ready: bool, command: Command)
    requires ready ==> TenVolts(b)
    ensures var (after, ready', r) := Execute(b, ready, command);
            && Steady(b, after) && (ready' ==> TenVolts(after))
            && (r.Ack? && (command.DoApply? || command.DoRecover?) ==> TenVolts(after))
  {
    StartSetsRange(b);
    BothKeepRange(b, 0.0, 0.0, Stopping);
    if command.DoApply? { BothKeepRange(b, command.supply, command.extract, Applying); }
    hide StartDac, SetBothChannels;
  }

  lemma AskKeepsRange(g: Rig, command: Command)
    requires Programmed(g) && g.worker.Running?
    ensures var (g', done) := Ask(g, command);
            && Programmed(g') && Steady(g.bench, g'.bench)
            && (done && (command.DoApply? || command.DoRecover?) ==> TenVolts(g'.bench))
            && (done && g.worker.actuatorReady ==> TenVolts(g'.bench))
  {
    ExecuteKeepsRange(g.bench, g.worker.actuatorReady, command);
    var (b1, ready, r) := Execute(g.bench, g.worker.actuatorReady, command);
    DeliverKeepsRange(b1, r);
    hide Execute, Deliver;
  }

  lemma DeliverKeepsRange(b: Bench, r: Reply)
    ensures var (after, answer) := Deliver(b, r);
            after.dac == b.dac && (answer.Ack? ==> r.Ack?)
  {
  }

  lemma StartWorkerKeepsRange(g: Rig)
    ensures var g' := StartWorker(g).0; Programmed(g') && Steady(g.bench, g'.bench)
  {
    StartSetsRange(Later(g.bench));
    hide StartDac;
  }

  lemma RequestKeepsRange(g: Rig, command: Command)
    requires Programmed(g)
    ensures var (g', done) := Request(g, command);
            && Programmed(g') && Steady(g.bench, g'.bench)
            && (done && (command.DoApply? || command.DoRecover? || g.worker == Running(true)) ==> TenVolts(g'.bench))
  {
    AliveChangesNothing(g);
    var (g1, alive) := CheckAlive(g);
    StartWorkerKeepsRange(g1.(ready := false));
    var g2 := StartWorker(g1.(ready := false)).0;
    if alive { AskKeepsRange(g1, command); }
    if g2.worker.Running? { AskKeepsRange(g2, command); }
    hide Ask, StartWorker, CheckAlive;
  }

  /** Known outputs are outputs in the 10 V range. */
  ghost predicate Ranged(s: System) {
    Programmed(s.rig) && (s.svc.known ==> TenVolts(s.rig.bench))
  }

  lemma RecoverKeepsRange(s: System, command: Command)
    requires (Coherent(s) || BirthRace(s)) && Ranged(s) && (command == DoStop || command == DoHealth)
    ensures var (mid, operational, done) := RecoverOr(s, command);
            && mid.svc == s.svc && Programmed(mid.rig) && Steady(s.rig.bench, mid.rig.bench)
            && (done ==> TenVolts(mid.rig.bench))
  {
    hide Request, CheckAlive, Recorded, Truthful, Steady;
    AliveChangesNothing(s.rig);
    var (g, ready) := if s.svc.recovery then (s.rig, false) else IsReady(s.rig);
    RequestKeepsRange(g, if ready then command else DoRecover);
    SameRange(s.rig.bench, g.bench);
  }

  lemma SameRange(b: Bench, c: Bench)
    ensures b.dac == c.dac ==> (forall d :: Steady(b, d) <==> Steady(c, d)) && (TenVolts(b) <==> TenVolts(c))
  {
  }

  lemma ReportKeepsRange(s: System)
    requires Ranged(s)
    ensures Ranged(Report(s).0)
  {
    AliveChangesNothing(s.rig);
    hide CheckAlive;
  }

  lemma OperateKeepsRange(s: System, op: Operation)
    requires (Coherent(s) || BirthRace(s)) && Ranged(s)
    ensures Ranged(Operate(s, op).0)
  {
    match op
    case OpSetManual(supply, extract) => ManualKeepsRange(s, supply, extract);
    case OpStop =>
      RecoverKeepsRange(s, DoStop);
      hide RecoverOr, Report, Coherent, BirthRace;
      if RecoverOr(s, DoStop).2 { ReportKeepsRange(CompleteRecovery(RecoverOr(s, DoStop).0)); }
    case OpHealthCheck => CheckKeepsRange(s);
    case OpState => ReportKeepsRange(s);
  }

  lemma CheckKeepsRange(s: System)
    requires (Coherent(s) || BirthRace(s)) && Ranged(s)
    ensures Ranged(HealthCheck(s).0)
  {
    RecoverKeepsRange(s, DoHealth);
    hide RecoverOr, Report, Coherent, BirthRace;
    var (mid, operational, done) := RecoverOr(s, DoHealth);
    var after :=
      if !done then RecordFailure(mid, false)
      else if !operational then CompleteRecovery(mid)
      else mid.(svc := mid.svc.(failures := 0, known := true));
    ReportKeepsRange(after);
  }

  lemma ManualKeepsRange(s: System, supply: real, extract: real)
    requires Ranged(s)
    ensures Ranged(SetManual(s, supply, extract).0)
  {
    AliveChangesNothing(s.rig);
    var g := IsReady(s.rig).0;
    hide Request, CheckAlive, Report;
    RequestKeepsRange(g, DoApply(supply, extract));
    var g' := Request(g, DoApply(supply, extract)).0;
    var sp := Setpoints(supply, extract);
    var mid := System(g', s.svc.(setpoints := sp, mode := if sp == STOPPED then STOP else MANUAL, known := true));
    if Ranged(mid) { ReportKeepsRange(mid); }
  }

  lemma FreshRigIsRanged(g: Rig, policy: Policy, threshold: nat)
    requires FreshRig(g) && threshold >= 1
    ensures Ranged(Construct(g, policy, threshold))
  {
    var b: Bench :| b.journal == [] && StartWorker(Rig(b, Absent, false)) == (g, true);
    StartWorkerKeepsRange(Rig(b, Absent, false));
    FreshRigIsZero(g);
    hide StartWorker, FreshRig, IsReady;
    ReadsOnlyFall(g);
    ReadsOnlyFall(IsReady(g).0);
    ReadsOnlyFall(IsReady(IsReady(g).0).0);
  }

  lemma {:induction false} RunKeepsRange(s: System, ops: seq<Operation>)
    requires (Coherent(s) || BirthRace(s)) && Ranged(s)
    ensures Ranged(Run(s, ops))
    decreases ops
  {
    hide Coherent, BirthRace, Ranged, Operate;
    if ops != [] {
      OperateKeepsRange(s, ops[0]);
      RunFromBirth(s, [ops[0]]);
      assert [ops[0]][1..] == [];
      assert Run(s, [ops[0]]) == Operate(s, ops[0]).0;
      RunKeepsRange(Operate(s, ops[0]).0, ops[1..]);
    }
  }

  /** Over every run and every script of fates: outputs reported as known, and any actuator
      that calls itself ready, have the 10 V range programmed. */
  lemma KnownMeansTenVolts(g: Rig, policy: Policy, threshold: nat, ops: seq<Operation>)
    requires FreshRig(g) && threshold >= 1
    ensures var s := Run(Construct(g, policy, threshold), ops);
            s.svc.known || s.rig.worker == Running(true) ==> s.rig.bench.dac.range == 0x11
  {
    FreshRigIsRanged(g, policy, threshold);
    ConstructIsCoherent(g, policy, threshold);
    hide Coherent, BirthRace, Run, Construct, FreshRig;
    RunKeepsRange(Construct(g, policy, threshold), ops);
  }
}
