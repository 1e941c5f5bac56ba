/** What the correlating registry shows of the service plane itself, and when a fault of the
    sensor bus gives way to a cause, said in terms of the snapshot alone. */
module ServicePlane {
  import opened Common
  import opened AlertStore
  import opened Correlation
  import AR = AlertRegistry
  import AlertRuns
  import AlertGuarantees

  // ----- the service network and the agent

  /** The agent has failed often enough, or this part of its network is reported down. */
  predicate Down(t: Trouble, state: MonitorState, settings: Settings) {
    var network := if state.available && state.snapshot.Some? then state.snapshot.value.network else None;
    match t
    case Agent(n) => !state.available && n == state.consecutiveFailures && n >= settings.failureThreshold
    case AccessPoint => network.Some? && !(network.value.apActive && network.value.addressPresent)
    case Dhcp => network.Some? && !network.value.dhcpActive
    case Firewall => network.Some? && !network.value.firewallActive
  }

  /** The key under which operators see it, and what the alert says. */
  predicate IsAlertOf(t: Trouble, key: string, meta: Meta) {
    && meta.severity == "warning"
    && match t
       case Agent(_) =>
         key == "service-plane:agent" && meta.code == "SERVICE_AGENT_UNAVAILABLE" && meta.source == "service_agent"
       case AccessPoint =>
         key == "service-plane:network:ap" && meta.code == "SERVICE_NETWORK_AP_UNAVAILABLE" &&
         meta.source == "service_network"
       case Dhcp =>
         key == "service-plane:network:dhcp" && meta.code == "SERVICE_NETWORK_DHCP_UNAVAILABLE" &&
         meta.source == "service_network"
       case Firewall =>
         key == "service-plane:network:firewall" && meta.code == "SERVICE_NETWORK_FIREWALL_INVALID" &&
         meta.source == "service_network"
  }

  /** The signal of a trouble; that of the agent counts its failures in a row. */
  lemma ServiceNames(t: Trouble)
    ensures IsAlertOf(t, ServiceKey(t), ServiceSignal(t).meta) && ServiceSignal(t).key == ServiceKey(t)
    ensures ServiceSignal(t).occurrences == if t.Agent? && t.failures > 1 then t.failures else 1
  {
    ServiceKeyText(t);
  }

  lemma ServiceKeyText(t: Trouble)
    ensures match t
            case Agent(_) => ServiceKey(t) == "service-plane:agent"
            case AccessPoint => ServiceKey(t) == "service-plane:network:ap"
            case Dhcp => ServiceKey(t) == "service-plane:network:dhcp"
            case Firewall => ServiceKey(t) == "service-plane:network:firewall"
  {
  }

  /** Different troubles have different keys; the agent's key does not depend on its count. */
  lemma ServiceKeysDiffer(t: Trouble, u: Trouble)
    requires ServiceKey(t) == ServiceKey(u)
    ensures t == u || (t.Agent? && u.Agent?)
  {
    ServiceKeyText(t);
    ServiceKeyText(u);
    assert "service-plane:agent"[14] == 'a' && "service-plane:network:ap"[14] == 'n';
    assert "service-plane:network:dhcp"[14] == 'n' && "service-plane:network:firewall"[14] == 'n';
    assert "service-plane:network:ap"[22] == 'a' && "service-plane:network:dhcp"[22] == 'd';
    assert "service-plane:network:firewall"[22] == 'f';
    hide ServiceKey;
  }

  /** The added signals are exactly those of what is down. */
  lemma DownIsSignalled(signals: seq<Signal>, state: MonitorState, settings: Settings, nowMs: int, t: Trouble)
    requires Separate(signals)
    ensures var out := Correlate(signals, state, settings, nowMs).0;
            && (Down(t, state, settings) ==> ServiceSignal(t) in out)
            && (forall s :: s in out && s.key == ServiceKey(t) ==>
                  exists u :: Down(u, state, settings) && s == ServiceSignal(u) && ServiceKey(u) == ServiceKey(t))
  {
    var out := Correlate(signals, state, settings, nowMs).0;
    forall s | s in out && s.key == ServiceKey(t)
      ensures exists u :: Down(u, state, settings) && s == ServiceSignal(u) && ServiceKey(u) == ServiceKey(t)
    {
      assert s !in signals;
      ServiceNames(t);
      KeyedSignalIsDown(signals, state, settings, nowMs, s, t);
    }
    if Down(t, state, settings) { DownIsAdded(signals, state, settings, nowMs, t); }
    hide Correlate, ServiceSignal, ServiceKey;
  }

  lemma DownIsAdded(signals: seq<Signal>, state: MonitorState, settings: Settings, nowMs: int, t: Trouble)
    requires Down(t, state, settings)
    ensures ServiceSignal(t) in Correlate(signals, state, settings, nowMs).0
  {
    hide ServiceSignal, Tallied, Without;
  }

  lemma KeyedSignalIsDown(
    signals: seq<Signal>, state: MonitorState, settings: Settings, nowMs: int, s: Signal, t: Trouble)
    requires s in Correlate(signals, state, settings, nowMs).0 && s !in signals && s.key == ServiceKey(t)
    ensures exists u :: Down(u, state, settings) && s == ServiceSignal(u) && ServiceKey(u) == ServiceKey(t)
  {
    if state.available && state.snapshot.Some? && state.snapshot.value.network.Some? &&
       state.snapshot.value.network.value.Healthy()
    {
      var grace := GraceElapsed(state.snapshot.value, settings, nowMs);
      var tally := Tallied(signals, state.snapshot.value.nodes, grace);
      TallyIsExact(signals, state.snapshot.value.nodes, grace);
      WithoutHolds(signals, tally.suppressed, s);
      hide Tallied, Without, Explains;
      assert Derives(signals, state.snapshot.value.nodes, grace, s);
      var a, c :| s == DerivedSignal(a, c);
      DerivedHasItsKey(a, c);
      ServiceIsNotDerived(t, a, c);
    } else {
      forall u ensures ServiceSignal(u).key == ServiceKey(u) { ServiceNames(u); }
      hide ServiceSignal, ServiceKey, Tallied, Without;
      var u :| Down(u, state, settings) && s == ServiceSignal(u);
    }
  }

  /** After a reconcile there is an active alert under the key of a trouble exactly when it
      is down, and it carries its code and source. */
  lemma ServiceAlertsExactly(
    reg: AR.Registry, signals: seq<Signal>, state: MonitorState, settings: Settings, nowMs: int, now: Stamp,
    t: Trouble, key: string, meta: Meta)
    requires AR.Sound(reg) && Separate(signals) && IsAlertOf(t, key, meta)
    ensures var after := AR.Reconcile(reg, Correlate(signals, state, settings, nowMs).0, now);
            && (forall r :: r in AR.ActiveView(after) && r.key == key ==> IsAlertOf(t, key, r.meta))
            && ((exists r :: r in AR.ActiveView(after) && r.key == key) <==>
                if t.Agent? then Down(Agent(state.consecutiveFailures), state, settings)
                else Down(t, state, settings))
  {
    var u := if t.Agent? then Agent(state.consecutiveFailures) else t;
    ServiceNames(t);
    ServiceNames(u);
    ServiceKeyText(t);
    ServiceKeyText(u);
    assert key == ServiceKey(u) && IsAlertOf(u, key, meta);
    DownIsSignalled(signals, state, settings, nowMs, u);
    var out := Correlate(signals, state, settings, nowMs).0;
    hide Correlate, ServiceSignal, ServiceKey, Separate, Down;
    forall s | s in out && s.key == key ensures IsAlertOf(t, key, s.meta) && Down(u, state, settings) {
      var v :| Down(v, state, settings) && s == ServiceSignal(v) && ServiceKey(v) == ServiceKey(u);
      ServiceKeysDiffer(v, u);
      ServiceNames(v);
      DownAgent(v, state, settings);
    }
    ActiveAreSignalled(reg, out, now, key);
  }

  lemma DownAgent(t: Trouble, state: MonitorState, settings: Settings)
    requires Down(t, state, settings)
    ensures t.Agent? ==> t == Agent(state.consecutiveFailures)
  {
  }

  /** After a reconcile the active records of a key are those of its signals. */
  lemma ActiveAreSignalled(reg: AR.Registry, out: seq<Signal>, now: Stamp, key: string)
    requires AR.Sound(reg)
    ensures var after := AR.Reconcile(reg, out, now);
            && (forall r :: r in AR.ActiveView(after) && r.key == key ==>
                  exists s :: s in out && s.key == key && r.meta == s.meta)
            && ((exists s :: s in out && s.key == key) ==> exists r :: r in AR.ActiveView(after) && r.key == key)
  {
    hide AR.ByKey, AR.Reconcile, AR.LedgerReconcile, AR.Tracked, AR.Numbered, AR.Watch;
    var after := AR.Reconcile(reg, out, now);
    AlertRuns.ReconcileRefines(reg, out, now);
    AlertRuns.QueriesShowLedger(after, 0);
    AlertRuns.SeenKeepsShape(reg);
    AlertRuns.SeenKeepsShape(after);
    AlertRuns.ByKeyDistinct(out);
    ByKeyIsWithin(out);
    AlertGuarantees.ReconcileMeaning(AR.Seen(reg), out, now);
    var ledger := AR.Seen(after);
    var i := AR.ActiveWith(ledger, key);
    if s :| s in out && s.key == key {
      assert key in AR.Keys(out) && ledger[i] in ledger;
    }
    forall r | r in AR.ActiveView(after) && r.key == key
      ensures exists s :: s in out && s.key == key && r.meta == s.meta
    {
      var k :| 0 <= k < |ledger| && ledger[k] == r;
      assert i < |ledger| && key in AR.Keys(AR.ByKey(out));
      var s :| s in AR.ByKey(out) && s.key == key;
      assert AlertGuarantees.Shows(ledger, s, AlertGuarantees.CountOf(AR.Seen(reg), key));
      assert ledger[i].Active() && ledger[k].Active() && ledger[i].key == ledger[k].key;
      assert i == k;
    }
  }

  // ----- faults that give way

  /** The service plane is heard of, and all four parts of its network are up. */
  predicate AllUp(state: MonitorState) {
    && state.available && state.snapshot.Some? && state.snapshot.value.network.Some?
    && var n := state.snapshot.value.network.value;
       n.apActive && n.addressPresent && n.dhcpActive && n.firewallActive
  }

  /** A silent node counts once it was ever heard, or once the agent has run for the grace
      time. */
  predicate Silent(node: Node, state: MonitorState, settings: Settings, nowMs: int)
    requires state.snapshot.Some?
  {
    var started := state.snapshot.value.agentStartedMs;
    !node.online && (node.received || (started.Some? && nowMs >= started.value + settings.graceMs))
  }

  /** The heartbeat of this node accounts for a fault at this address. */
  predicate Blames(node: Node, address: nat, state: MonitorState, settings: Settings, nowMs: int)
    requires state.snapshot.Some?
  {
    && node.nodeId != "" && node.modbusAddress == Some(address)
    && if node.online then node.sensorOffline || node.rs485NotReady else Silent(node, state, settings, nowMs)
  }

  ghost predicate Blamed(address: nat, state: MonitorState, settings: Settings, nowMs: int)
    requires state.snapshot.Some?
  {
    exists node :: node in state.snapshot.value.nodes && Blames(node, address, state, settings, nowMs)
  }

  /** A fault of the sensor bus at this address, as the bus reports it. */
  predicate SensorFault(s: Signal, address: nat) {
    && (s.meta.code == "SENSOR_NODE_UNAVAILABLE" || s.meta.code == "SENSOR_DATA_INVALID")
    && s.meta.source == "sensor:" + Decimal(address)
  }

  /** A fault leaves the list exactly when the service plane is all up and the heartbeat of
      a node with its address accounts for it. */
  lemma FaultGivesWay(
    signals: seq<Signal>, state: MonitorState, settings: Settings, nowMs: int, fault: Signal, address: nat)
    requires AR.DistinctKeys(signals) && Separate(signals) && fault in signals
    requires 1 <= address <= 247 && SensorFault(fault, address)
    ensures fault !in Correlate(signals, state, settings, nowMs).0 <==>
            AllUp(state) && Blamed(address, state, settings, nowMs)
  {
    SourceReadsBack(address);
    assert IsFaultAt(fault, address);
    hide SourceAddress, SensorFault;
    if AllUp(state) {
      var nodes, grace := state.snapshot.value.nodes, GraceElapsed(state.snapshot.value, settings, nowMs);
      FaultsAtHolds(signals, address, fault);
      hide FaultsAt, IsFaultAt;
      forall node ensures Blames(node, address, state, settings, nowMs) <==>
                          exists cause :: Accounts(node, grace, address, cause)
      {
        BlamedCause(node, address, state, settings, nowMs);
      }
      FaultIsReplacedExactlyWhenExplained(signals, state, settings, nowMs, fault, address);
      hide Correlate, Accounts, Blames, GraceElapsed, Separate;
      if Blamed(address, state, settings, nowMs) {
        var node :| node in nodes && Blames(node, address, state, settings, nowMs);
        var cause :| Accounts(node, grace, address, cause);
        assert Explains(signals, nodes, grace, address, cause);
      }
      if cause :| Explains(signals, nodes, grace, address, cause) {
        var node :| node in nodes && Accounts(node, grace, address, cause);
        assert Blames(node, address, state, settings, nowMs);
      }
    }
  }

  lemma BlamedCause(node: Node, address: nat, state: MonitorState, settings: Settings, nowMs: int)
    requires state.snapshot.Some? && 1 <= address <= 247
    ensures Blames(node, address, state, settings, nowMs) <==>
            exists cause ::
              Accounts(node, GraceElapsed(state.snapshot.value, settings, nowMs), address, cause)
  {
    var grace := GraceElapsed(state.snapshot.value, settings, nowMs);
    var cause := if !node.online then Unreachable else if node.sensorOffline then SensorOffline else Rs485NotReady;
    if Blames(node, address, state, settings, nowMs) { assert Accounts(node, grace, address, cause); }
  }

  /** The signal that takes its place names the same sensor, and its key and code the cause. */
  predicate Stands(d: Signal, node: Node, address: nat) {
    && d.meta.source == "sensor:" + Decimal(address) && d.meta.severity == "warning" && d.occurrences == 1
    && if !node.online then
         d.key == "sensor-node:" + Decimal(address) + ":correlated-unavailable" &&
         d.meta.code == "KAMOD_NODE_UNAVAILABLE"
       else if node.sensorOffline then
         d.key == "sensor-node:" + Decimal(address) + ":kamod-sensor-state" && d.meta.code == "KAMOD_SENSOR_STATE_ERROR"
       else
         d.key == "sensor-node:" + Decimal(address) + ":kamod-rs485" && d.meta.code == "KAMOD_RS485_NOT_READY"
  }

  /** Every node that accounts for a fault has the signal of its own cause in the list. */
  lemma BlameIsSignalled(
    signals: seq<Signal>, state: MonitorState, settings: Settings, nowMs: int, fault: Signal, address: nat, node: Node)
    requires fault in signals && 1 <= address <= 247 && SensorFault(fault, address) && AllUp(state)
    requires node in state.snapshot.value.nodes && Blames(node, address, state, settings, nowMs)
    ensures exists d :: d in Correlate(signals, state, settings, nowMs).0 && Stands(d, node, address)
  {
    var nodes, grace := state.snapshot.value.nodes, GraceElapsed(state.snapshot.value, settings, nowMs);
    SourceReadsBack(address);
    FaultsAtHolds(signals, address, fault);
    hide FaultsAt, SourceAddress;
    var cause := if !node.online then Unreachable else if node.sensorOffline then SensorOffline else Rs485NotReady;
    assert Accounts(node, grace, address, cause);
    assert Explains(signals, nodes, grace, address, cause);
    TallyIsExact(signals, nodes, grace);
    hide Tallied, Without, SensorFault;
    var d := DerivedSignal(address, cause);
    assert d in Correlate(signals, state, settings, nowMs).0;
    DerivedText(address, cause);
  }

  lemma DerivedText(address: nat, cause: Cause)
    ensures var d := DerivedSignal(address, cause);
            && d.meta.source == "sensor:" + Decimal(address) && d.meta.severity == "warning" && d.occurrences == 1
            && match cause
               case Unreachable =>
                 d.key == "sensor-node:" + Decimal(address) + ":correlated-unavailable" &&
                 d.meta.code == "KAMOD_NODE_UNAVAILABLE"
               case SensorOffline =>
                 d.key == "sensor-node:" + Decimal(address) + ":kamod-sensor-state" &&
                 d.meta.code == "KAMOD_SENSOR_STATE_ERROR"
               case Rs485NotReady =>
                 d.key == "sensor-node:" + Decimal(address) + ":kamod-rs485" &&
                 d.meta.code == "KAMOD_RS485_NOT_READY"
  {
    hide Decimal;
    assert DerivedKey(address, cause) == "sensor-node:" + Decimal(address) + Suffix(cause);
  }

  // ----- the diagnostics

  /** A silent node without a fault at its address. */
  ghost predicate OnlySilent(
    node: Node, signals: seq<Signal>, state: MonitorState, settings: Settings, nowMs: int)
    requires state.snapshot.Some?
  {
    && node.nodeId != "" && Silent(node, state, settings, nowMs)
    && forall address: nat, s ::
         1 <= address <= 247 && node.modbusAddress == Some(address) && s in signals ==> !IsFaultAt(s, address)
  }

  /** The diagnostics list as service-only exactly the nodes that are silent while the
      sensor bus reports nothing of them, and say why nothing else was correlated. */
  lemma DiagnosticsMeaning(
    signals: seq<Signal>, state: MonitorState, settings: Settings, nowMs: int, id: string)
    ensures var d := Correlate(signals, state, settings, nowMs).1;
            && (d.reason == Complete <==> AllUp(state))
            && (d.reason == AgentUnavailable <==> !state.available)
            && (d.reason == NetworkDegraded <==>
                  !AllUp(state) && state.available && state.snapshot.Some? && state.snapshot.value.network.Some?)
            && (d.reason == NoSnapshot <==> state.available && state.snapshot.None?)
            && (id in d.serviceOnly <==>
                  AllUp(state) && exists node :: node in state.snapshot.value.nodes && node.nodeId == id &&
                                                 OnlySilent(node, signals, state, settings, nowMs))
  {
    hide Tallied, Without, ServiceSignal;
    if AllUp(state) {
      OnlySilentIsTallied(signals, state, settings, nowMs, state.snapshot.value.nodes, id);
    }
  }

  lemma {:induction false} OnlySilentIsTallied(
    signals: seq<Signal>, state: MonitorState, settings: Settings, nowMs: int, nodes: seq<Node>, id: string)
    requires state.snapshot.Some?
    ensures id in Tallied(signals, nodes, GraceElapsed(state.snapshot.value, settings, nowMs)).serviceOnly <==>
            exists node :: node in nodes && node.nodeId == id && OnlySilent(node, signals, state, settings, nowMs)
    decreases |nodes|
  {
    if nodes != [] {
      var front, last := nodes[..|nodes| - 1], nodes[|nodes| - 1];
      assert nodes == front + [last];
      OnlySilentIsTallied(signals, state, settings, nowMs, front, id);
      OnlySilentIsJudged(signals, state, settings, nowMs, last);
      hide OnlySilent, Judge, Faulty, GraceElapsed, FaultsAt;
      assert OnlySilent(last, signals, state, settings, nowMs) ==> last in nodes;
    }
  }

  lemma OnlySilentIsJudged(
    signals: seq<Signal>, state: MonitorState, settings: Settings, nowMs: int, node: Node)
    requires state.snapshot.Some?
    ensures var grace := GraceElapsed(state.snapshot.value, settings, nowMs);
            OnlySilent(node, signals, state, settings, nowMs) <==>
            node.nodeId != "" && Judge(node, Faulty(signals, node), grace) == ServiceOnly
  {
    if node.Address().Some? {
      var a := node.Address().value;
      forall s ensures s in FaultsAt(signals, a) <==> s in signals && IsFaultAt(s, a) { FaultsAtHolds(signals, a, s); }
      hide IsFaultAt, FaultsAt;
      if FaultsAt(signals, a) != [] { assert FaultsAt(signals, a)[0] in FaultsAt(signals, a); }
    }
  }

  /** The diagnostics name exactly the signals that were taken out and those that came in. */
  lemma DiagnosticsTellChanges(signals: seq<Signal>, state: MonitorState, settings: Settings, nowMs: int)
    requires Separate(signals)
    ensures var (out, d) := Correlate(signals, state, settings, nowMs);
            && (forall s :: s in signals ==> (s in out <==> s.key !in d.suppressed))
            && (forall key :: key in d.derivedKeys <==> exists s :: s in out && s !in signals && s.key == key)
  {
    var (out, d) := Correlate(signals, state, settings, nowMs);
    var t := TallyOf(signals, state, settings, nowMs);
    OutOfTally(signals, state, settings, nowMs);
    hide Correlate, TallyOf, Separate, Without;
    forall s ensures s in Without(signals, t.suppressed) <==> s in signals && s.key !in t.suppressed {
      WithoutHolds(signals, t.suppressed, s);
    }
    forall s | s in t.derived ensures s !in signals {
      AddedIsSeparate(signals, state, settings, nowMs, s);
    }
    forall key ensures key in d.derivedKeys <==> exists s :: s in t.derived && s.key == key {
      KeyListHolds(t.derived, key);
    }
  }

  lemma KeyListHolds(signals: seq<Signal>, key: string)
    ensures key in KeyList(signals) <==> exists s :: s in signals && s.key == key
  {
    if s :| s in signals && s.key == key {
      var i :| 0 <= i < |signals| && signals[i] == s;
      assert KeyList(signals)[i] == key;
    }
    if key in KeyList(signals) {
      var i :| 0 <= i < |signals| && KeyList(signals)[i] == key;
      assert signals[i] in signals;
    }
  }

  lemma OutOfTally(signals: seq<Signal>, state: MonitorState, settings: Settings, nowMs: int)
    ensures var (out, d) := Correlate(signals, state, settings, nowMs);
            var t := TallyOf(signals, state, settings, nowMs);
            && out == Without(signals, t.suppressed) + t.derived
            && d.suppressed == t.suppressed && d.derivedKeys == KeyList(t.derived)
  {
    hide Tallied, Without, NetworkSignals, AgentSignals, KeyList;
    WithoutNone(signals);
  }

  lemma {:induction false} WithoutNone(signals: seq<Signal>)
    ensures Without(signals, {}) == signals
    decreases |signals|
  {
    if signals != [] {
      WithoutNone(signals[..|signals| - 1]);
    }
  }

  function TallyOf(signals: seq<Signal>, state: MonitorState, settings: Settings, nowMs: int): Tally {
    if !state.available then Tally(AgentSignals(state, settings), {}, {})
    else if state.snapshot.None? || state.snapshot.value.network.None? then Tally([], {}, {})
    else if AllUp(state) then
      Tallied(signals, state.snapshot.value.nodes, GraceElapsed(state.snapshot.value, settings, nowMs))
    else Tally(NetworkSignals(state.snapshot.value.network.value), {}, {})
  }

  lemma AddedIsSeparate(signals: seq<Signal>, state: MonitorState, settings: Settings, nowMs: int, s: Signal)
    requires Separate(signals) && s in TallyOf(signals, state, settings, nowMs).derived
    ensures forall b :: b in signals ==> b.key != s.key
  {
    if AllUp(state) {
      var nodes, grace := state.snapshot.value.nodes, GraceElapsed(state.snapshot.value, settings, nowMs);
      TallyIsExact(signals, nodes, grace);
      hide Tallied, Explains;
      assert Derives(signals, nodes, grace, s);
      var a, c :| s == DerivedSignal(a, c);
      DerivedHasItsKey(a, c);
    } else {
      AddedAreService(state, settings);
      hide AgentSignals, NetworkSignals, ServiceSignal;
      var t :| s == ServiceSignal(t);
      ServiceNames(t);
    }
  }
}
