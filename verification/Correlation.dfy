/** ServicePlaneCorrelatingAlertRegistry of
    src/ventilation_core/application/service_plane_alert_registry.py: before the alert
    registry reconciles, signals of the sensor bus that a heartbeat node explains are
    replaced by the root cause.

    A snapshot is taken as decoded: a flag says whether the field has the value that
    the source compares with.  Message texts are left out. */
module Correlation {
  import opened Common
  import opened AlertStore
  import AR = AlertRegistry
  import AlertRuns
  import AlertGuarantees
  import AlertRegistryService

  // ----- sources of the form sensor:N

  function Digit(d: nat): char
    requires d < 10
  {
    '0' + d as char
  }

  function Decimal(n: nat): string
    decreases n
  {
    if n < 10 then [Digit(n)] else Decimal(n / 10) + [Digit(n % 10)]
  }

  predicate IsDigit(c: char) {
    '0' <= c <= '9'
  }

  predicate AllDigits(s: string) {
    forall i :: 0 <= i < |s| ==> IsDigit(s[i])
  }

  function Number(s: string): nat
    requires AllDigits(s)
    decreases |s|
  {
    if s == "" then 0 else Number(s[..|s| - 1]) * 10 + (s[|s| - 1] - '0') as nat
  }

  const SENSOR := "sensor:"

  function SensorSource(address: nat): string {
    SENSOR + Decimal(address)
  }

  /** The Modbus address of a source, if it names one. */
  function SourceAddress(source: string): Option<nat> {
    if !(SENSOR <= source) then None
    else
      var rest := source[|SENSOR|..];
      if rest == "" || !AllDigits(rest) || !(1 <= Number(rest) <= 247) then None else Some(Number(rest))
  }

  lemma {:induction false} DecimalReadsBack(n: nat)
    ensures Decimal(n) != "" && AllDigits(Decimal(n)) && Number(Decimal(n)) == n
    decreases n
  {
    if n >= 10 {
      DecimalReadsBack(n / 10);
      assert Decimal(n)[..|Decimal(n)| - 1] == Decimal(n / 10);
    } else {
      assert Decimal(n)[..0] == "";
    }
  }

  /** A canonical source is read back as its address. */
  lemma SourceReadsBack(address: nat)
    requires 1 <= address <= 247
    ensures SourceAddress(SensorSource(address)) == Some(address)
  {
    DecimalReadsBack(address);
    assert SensorSource(address)[|SENSOR|..] == Decimal(address);
  }

  // ----- what the service plane reports

  datatype Network = Network(apActive: bool, addressPresent: bool, dhcpActive: bool, firewallActive: bool)
  {
    predicate Healthy() {
      apActive && addressPresent && dhcpActive && firewallActive
    }
  }

  /** received: a heartbeat was ever received; an entry that is not an object has no id. */
  datatype Node = Node(
    nodeId: string, modbusAddress: Option<int>, online: bool, received: bool, sensorOffline: bool, rs485NotReady: bool)
  {
    function Address(): Option<nat> {
      if modbusAddress.Some? && 1 <= modbusAddress.value <= 247 then Some(modbusAddress.value) else None
    }
  }

  datatype Snapshot = Snapshot(network: Option<Network>, agentStartedMs: Option<int>, nodes: seq<Node>)

  datatype MonitorState = MonitorState(available: bool, consecutiveFailures: int, snapshot: Option<Snapshot>)

  // ----- derived signals

  datatype Cause = Unreachable | SensorOffline | Rs485NotReady

  function Suffix(cause: Cause): string {
    match cause
    case Unreachable => ":correlated-unavailable"
    case SensorOffline => ":kamod-sensor-state"
    case Rs485NotReady => ":kamod-rs485"
  }

  function Code(cause: Cause): string {
    match cause
    case Unreachable => "KAMOD_NODE_UNAVAILABLE"
    case SensorOffline => "KAMOD_SENSOR_STATE_ERROR"
    case Rs485NotReady => "KAMOD_RS485_NOT_READY"
  }

  const NODE_KEY := "sensor-node:"

  function DerivedKey(address: nat, cause: Cause): string {
    NODE_KEY + (Decimal(address) + Suffix(cause))
  }

  function DerivedSignal(address: nat, cause: Cause): Signal {
    RawSignal(DerivedKey(address, cause), Meta(Code(cause), SensorSource(address), "warning", Code(cause), ""), 1)
  }

  datatype Trouble = Agent(failures: int) | AccessPoint | Dhcp | Firewall

  const SERVICE_KEY := "service-plane:"

  function ServiceKey(t: Trouble): string {
    SERVICE_KEY +
    match t
    case Agent(_) => "agent"
    case AccessPoint => "network:ap"
    case Dhcp => "network:dhcp"
    case Firewall => "network:firewall"
  }

  function ServiceCode(t: Trouble): string {
    match t
    case Agent(_) => "SERVICE_AGENT_UNAVAILABLE"
    case AccessPoint => "SERVICE_NETWORK_AP_UNAVAILABLE"
    case Dhcp => "SERVICE_NETWORK_DHCP_UNAVAILABLE"
    case Firewall => "SERVICE_NETWORK_FIREWALL_INVALID"
  }

  function ServiceSource(t: Trouble): string {
    if t.Agent? then "service_agent" else "service_network"
  }

  /** The count of failures reached a threshold of at least one. */
  function ServiceSignal(t: Trouble): Signal {
    assert ServiceKey(t)[0] == 's' && ServiceCode(t)[0] == 'S' && ServiceSource(t)[0] == 's';
    RawSignal(ServiceKey(t), Meta(ServiceCode(t), ServiceSource(t), "warning", ServiceCode(t), ""),
              if t.Agent? then Max(t.failures, 1) else 1)
  }

  function NetworkSignals(n: Network): seq<Signal> {
    (if n.apActive && n.addressPresent then [] else [ServiceSignal(AccessPoint)]) +
    (if n.dhcpActive then [] else [ServiceSignal(Dhcp)]) +
    (if n.firewallActive then [] else [ServiceSignal(Firewall)])
  }

  // ----- correlation

  /** A production fault of the sensor bus. */
  predicate IsFault(s: Signal) {
    s.meta.code == "SENSOR_NODE_UNAVAILABLE" || s.meta.code == "SENSOR_DATA_INVALID"
  }

  predicate IsFaultAt(s: Signal, address: nat) {
    IsFault(s) && SourceAddress(s.meta.source) == Some(address)
  }

  function FaultsAt(signals: seq<Signal>, address: nat): seq<Signal>
    decreases |signals|
  {
    if signals == [] then []
    else
      var front, last := FaultsAt(signals[..|signals| - 1], address), signals[|signals| - 1];
      if IsFaultAt(last, address) then front + [last] else front
  }

  datatype Verdict = Nothing | ServiceOnly | RootCause(address: nat, cause: Cause)

  function Judge(node: Node, faulty: bool, graceElapsed: bool): Verdict {
    if !node.online then
      if !node.received && !graceElapsed then Nothing
      else if faulty && node.Address().Some? then RootCause(node.Address().value, Unreachable)
      else ServiceOnly
    else if !faulty || node.Address().None? then Nothing
    else if node.sensorOffline then RootCause(node.Address().value, SensorOffline)
    else if node.rs485NotReady then RootCause(node.Address().value, Rs485NotReady)
    else Nothing
  }

  datatype Tally = Tally(derived: seq<Signal>, suppressed: set<string>, serviceOnly: set<string>)

  function Faulty(signals: seq<Signal>, node: Node): bool {
    node.Address().Some? && FaultsAt(signals, node.Address().value) != []
  }

  function WithNode(t: Tally, signals: seq<Signal>, node: Node, graceElapsed: bool): Tally {
    if node.nodeId == "" then t
    else
      match Judge(node, Faulty(signals, node), graceElapsed)
      case Nothing => t
      case ServiceOnly => t.(serviceOnly := t.serviceOnly + {node.nodeId})
      case RootCause(address, cause) =>
        t.(derived := t.derived + [DerivedSignal(address, cause)],
           suppressed := t.suppressed + AR.Keys(FaultsAt(signals, address)))
  }

  function Tallied(signals: seq<Signal>, nodes: seq<Node>, graceElapsed: bool): Tally
    decreases |nodes|
  {
    if nodes == [] then Tally([], {}, {})
    else WithNode(Tallied(signals, nodes[..|nodes| - 1], graceElapsed), signals, nodes[|nodes| - 1], graceElapsed)
  }

  function Without(signals: seq<Signal>, suppressed: set<string>): seq<Signal>
    decreases |signals|
  {
    if signals == [] then []
    else
      var front, last := Without(signals[..|signals| - 1], suppressed), signals[|signals| - 1];
      if last.key in suppressed then front else front + [last]
  }

  datatype Reason = AgentUnavailable | NoSnapshot | NoNetwork | NetworkDegraded | Complete

  datatype Diagnostics = Diagnostics(
    derivedKeys: seq<string>, suppressed: set<string>, serviceOnly: set<string>, reason: Reason)

  datatype Settings = Settings(failureThreshold: int, graceMs: int)

  function GraceElapsed(snapshot: Snapshot, settings: Settings, nowMs: int): bool {
    snapshot.agentStartedMs.Some? && nowMs - snapshot.agentStartedMs.value >= settings.graceMs
  }

  function KeyList(signals: seq<Signal>): seq<string> {
    seq(|signals|, i requires 0 <= i < |signals| => signals[i].key)
  }

  function Report(t: Tally, reason: Reason): Diagnostics {
    Diagnostics(KeyList(t.derived), t.suppressed, t.serviceOnly, reason)
  }

  function AgentSignals(state: MonitorState, settings: Settings): seq<Signal> {
    if state.consecutiveFailures >= settings.failureThreshold
    then [ServiceSignal(Agent(state.consecutiveFailures))] else []
  }

  /** _correlate. */
  function Correlate(signals: seq<Signal>, state: MonitorState, settings: Settings, nowMs: int):
      (seq<Signal>, Diagnostics) {
    if !state.available then
      var t := Tally(AgentSignals(state, settings), {}, {});
      (signals + t.derived, Report(t, AgentUnavailable))
    else
      match state.snapshot
      case None => (signals, Report(Tally([], {}, {}), NoSnapshot))
      case Some(snapshot) =>
        match snapshot.network
        case None => (signals, Report(Tally([], {}, {}), NoNetwork))
        case Some(network) =>
          if !network.Healthy() then
            var t := Tally(NetworkSignals(network), {}, {});
            (signals + t.derived, Report(t, NetworkDegraded))
          else
            var t := Tallied(signals, snapshot.nodes, GraceElapsed(snapshot, settings, nowMs));
            (Without(signals, t.suppressed) + t.derived, Report(t, Complete))
  }

  // ----- no fault is lost

  /** Another signal that stands for the fault: a KAMOD cause with the same source. */
  ghost predicate Replaces(d: Signal, fault: Signal) {
    exists address, cause :: d == DerivedSignal(address, cause) && d.meta.source == fault.meta.source
  }

  /** The fault names a sensor in the form that the sensor bus uses. */
  ghost predicate Canonical(fault: Signal) {
    exists address: nat :: 1 <= address <= 247 && fault.meta.source == SensorSource(address)
  }

  ghost predicate CanonicalFaults(signals: seq<Signal>) {
    forall s :: s in signals && IsFault(s) ==> Canonical(s)
  }

  lemma {:induction false} FaultsAtHolds(signals: seq<Signal>, address: nat, s: Signal)
    ensures s in FaultsAt(signals, address) <==> s in signals && IsFaultAt(s, address)
    decreases |signals|
  {
    if signals != [] {
      hide IsFaultAt;
      FaultsAtHolds(signals[..|signals| - 1], address, s);
      assert signals == signals[..|signals| - 1] + [signals[|signals| - 1]];
    }
  }

  lemma {:induction false} WithoutHolds(signals: seq<Signal>, suppressed: set<string>, s: Signal)
    ensures s in Without(signals, suppressed) <==> s in signals && s.key !in suppressed
    decreases |signals|
  {
    if signals != [] {
      WithoutHolds(signals[..|signals| - 1], suppressed, s);
      assert signals == signals[..|signals| - 1] + [signals[|signals| - 1]];
    }
  }

  /** Every key is suppressed for a cause, and every cause is the cause of a fault. */
  ghost predicate Explained(signals: seq<Signal>, t: Tally) {
    && (forall key :: key in t.suppressed ==> ExplainedKey(signals, t, key))
    && (forall d :: d in t.derived ==> Accuses(signals, d))
  }

  ghost predicate ExplainedKey(signals: seq<Signal>, t: Tally, key: string) {
    exists s, address, cause ::
      s in signals && s.key == key && IsFaultAt(s, address) && DerivedSignal(address, cause) in t.derived
  }

  ghost predicate Accuses(signals: seq<Signal>, d: Signal) {
    exists s, address, cause :: s in signals && IsFaultAt(s, address) && d == DerivedSignal(address, cause)
  }

  // ----- which faults are replaced

  /** What the heartbeat of a node says about it. */
  predicate Suffers(node: Node, cause: Cause, graceElapsed: bool) {
    match cause
    case Unreachable => !node.online && (node.received || graceElapsed)
    case SensorOffline => node.online && node.sensorOffline
    case Rs485NotReady => node.online && !node.sensorOffline && node.rs485NotReady
  }

  /** A node of this address suffers from the cause, and the sensor bus reports a fault there. */
  ghost predicate Explains(signals: seq<Signal>, nodes: seq<Node>, graceElapsed: bool, address: nat, cause: Cause) {
    && FaultsAt(signals, address) != []
    && exists node :: node in nodes && Accounts(node, graceElapsed, address, cause)
  }

  predicate Accounts(node: Node, graceElapsed: bool, address: nat, cause: Cause) {
    node.nodeId != "" && node.Address() == Some(address) && Suffers(node, cause, graceElapsed)
  }

  /** The causes are exactly those that a node explains; nothing else is derived, and
      exactly the faults at their addresses are suppressed. */
  ghost predicate Exact(signals: seq<Signal>, nodes: seq<Node>, graceElapsed: bool, t: Tally) {
    && (forall a, c :: Explains(signals, nodes, graceElapsed, a, c) ==> DerivedSignal(a, c) in t.derived)
    && (forall d :: d in t.derived ==> Derives(signals, nodes, graceElapsed, d))
    && (forall s, a, c :: s in signals && IsFaultAt(s, a) && Explains(signals, nodes, graceElapsed, a, c) ==>
          s.key in t.suppressed)
    && (forall key :: key in t.suppressed ==> Suppresses(signals, nodes, graceElapsed, key))
  }

  ghost predicate Derives(signals: seq<Signal>, nodes: seq<Node>, graceElapsed: bool, d: Signal) {
    exists a, c :: Explains(signals, nodes, graceElapsed, a, c) && d == DerivedSignal(a, c)
  }

  ghost predicate Suppresses(signals: seq<Signal>, nodes: seq<Node>, graceElapsed: bool, key: string) {
    exists s, a, c ::
      s in signals && s.key == key && IsFaultAt(s, a) && Explains(signals, nodes, graceElapsed, a, c)
  }

  /** One node: the verdict on it names exactly the cause it accounts for. */
  lemma JudgeIsExact(signals: seq<Signal>, node: Node, graceElapsed: bool, a: nat, c: Cause)
    ensures node.nodeId != "" && Judge(node, Faulty(signals, node), graceElapsed) == RootCause(a, c) <==>
            FaultsAt(signals, a) != [] && Accounts(node, graceElapsed, a, c)
  {
    hide FaultsAt;
  }

  lemma OneMoreNode(signals: seq<Signal>, front: seq<Node>, last: Node, graceElapsed: bool, a: nat, c: Cause)
    ensures Explains(signals, front + [last], graceElapsed, a, c) <==>
            Explains(signals, front, graceElapsed, a, c) ||
            (FaultsAt(signals, a) != [] && Accounts(last, graceElapsed, a, c))
  {
    hide FaultsAt, Accounts;
    assert last in front + [last];
  }

  lemma {:induction false} TallyIsExact(signals: seq<Signal>, nodes: seq<Node>, graceElapsed: bool)
    ensures Exact(signals, nodes, graceElapsed, Tallied(signals, nodes, graceElapsed))
    decreases |nodes|
  {
    if nodes != [] {
      var front, last := nodes[..|nodes| - 1], nodes[|nodes| - 1];
      assert nodes == front + [last];
      TallyIsExact(signals, front, graceElapsed);
      WithNodeIsExact(signals, front, last, graceElapsed, Tallied(signals, front, graceElapsed));
    }
  }

  lemma WithNodeIsExact(signals: seq<Signal>, front: seq<Node>, last: Node, graceElapsed: bool, t: Tally)
    requires Exact(signals, front, graceElapsed, t)
    ensures Exact(signals, front + [last], graceElapsed, WithNode(t, signals, last, graceElapsed))
  {
    hide IsFaultAt, DerivedSignal, FaultsAt, Judge, Faulty, Explains, Accounts;
    var nodes := front + [last];
    var u := WithNode(t, signals, last, graceElapsed);
    var verdict := Judge(last, Faulty(signals, last), graceElapsed);
    forall a, c
      ensures Explains(signals, nodes, graceElapsed, a, c) <==>
              Explains(signals, front, graceElapsed, a, c) || (last.nodeId != "" && verdict == RootCause(a, c))
    {
      JudgeIsExact(signals, last, graceElapsed, a, c);
      OneMoreNode(signals, front, last, graceElapsed, a, c);
    }
    forall s, a ensures s in FaultsAt(signals, a) <==> s in signals && IsFaultAt(s, a) {
      FaultsAtHolds(signals, a, s);
    }
    forall key | key in u.suppressed ensures Suppresses(signals, nodes, graceElapsed, key) {
      if key in t.suppressed {
        assert Suppresses(signals, front, graceElapsed, key);
        var s, a, c :| s in signals && s.key == key && IsFaultAt(s, a) && Explains(signals, front, graceElapsed, a, c);
        assert Explains(signals, nodes, graceElapsed, a, c);
      } else {
        var s :| s in FaultsAt(signals, verdict.address) && s.key == key;
        assert Explains(signals, nodes, graceElapsed, verdict.address, verdict.cause);
      }
    }
    forall d | d in u.derived ensures Derives(signals, nodes, graceElapsed, d) {
      if d in t.derived {
        assert Derives(signals, front, graceElapsed, d);
        var a, c :| Explains(signals, front, graceElapsed, a, c) && d == DerivedSignal(a, c);
        assert Explains(signals, nodes, graceElapsed, a, c);
      } else {
        assert Explains(signals, nodes, graceElapsed, verdict.address, verdict.cause);
      }
    }
  }

  /** So every suppressed key has its cause, and every cause its fault. */
  lemma TallyIsExplained(signals: seq<Signal>, nodes: seq<Node>, graceElapsed: bool)
    ensures Explained(signals, Tallied(signals, nodes, graceElapsed))
  {
    TallyIsExact(signals, nodes, graceElapsed);
    var t := Tallied(signals, nodes, graceElapsed);
    hide Tallied, IsFaultAt, DerivedSignal, FaultsAt, Accounts;
    forall key | key in t.suppressed ensures ExplainedKey(signals, t, key) {
      assert Suppresses(signals, nodes, graceElapsed, key);
    }
    forall d | d in t.derived ensures Accuses(signals, d) {
      assert Derives(signals, nodes, graceElapsed, d);
      var a, c :| Explains(signals, nodes, graceElapsed, a, c) && d == DerivedSignal(a, c);
      var fault := FaultsAt(signals, a)[0];
      assert fault in FaultsAt(signals, a);
      FaultsAtHolds(signals, a, fault);
    }
  }

  /** With a healthy service network a fault with a canonical source is replaced if and
      only if a node of its address accounts for it. */
  lemma FaultIsReplacedExactlyWhenExplained(
    signals: seq<Signal>, state: MonitorState, settings: Settings, nowMs: int, fault: Signal, address: nat)
    requires AR.DistinctKeys(signals) && fault in signals && IsFaultAt(fault, address)
    requires state.available && state.snapshot.Some? && state.snapshot.value.network.Some?
    requires state.snapshot.value.network.value.Healthy() && Separate(signals)
    ensures var grace := GraceElapsed(state.snapshot.value, settings, nowMs);
            fault !in Correlate(signals, state, settings, nowMs).0 <==>
            exists cause :: Explains(signals, state.snapshot.value.nodes, grace, address, cause)
  {
    var nodes, grace := state.snapshot.value.nodes, GraceElapsed(state.snapshot.value, settings, nowMs);
    TallyIsExact(signals, nodes, grace);
    var t := Tallied(signals, nodes, grace);
    WithoutHolds(signals, t.suppressed, fault);
    hide Tallied, Explains, DerivedSignal, SourceAddress, GraceElapsed;
    forall d | d in t.derived ensures d.key != fault.key {
      assert Derives(signals, nodes, grace, d);
      var a, c :| Explains(signals, nodes, grace, a, c) && d == DerivedSignal(a, c);
      DerivedHasItsKey(a, c);
    }
    if fault.key in t.suppressed {
      assert Suppresses(signals, nodes, grace, fault.key);
      var s, a, c :|
        s in signals && s.key == fault.key && IsFaultAt(s, a) && Explains(signals, nodes, grace, a, c);
      SameKeySameSignal(signals, s, fault);
    }
  }

  lemma DerivedHasItsKey(address: nat, cause: Cause)
    ensures DerivedSignal(address, cause).key == DerivedKey(address, cause)
  {
  }

  lemma SameKeySameSignal(signals: seq<Signal>, x: Signal, y: Signal)
    requires AR.DistinctKeys(signals) && x in signals && y in signals && x.key == y.key
    ensures x == y
  {
    var i :| 0 <= i < |signals| && signals[i] == x;
    var j :| 0 <= j < |signals| && signals[j] == y;
    assert !(i < j) && !(j < i);
  }

  /** Base signals carry distinct keys, so only faults are suppressed. */
  lemma OnlyFaultsAreSuppressed(signals: seq<Signal>, t: Tally, s: Signal)
    requires Explained(signals, t) && AR.DistinctKeys(signals) && s in signals && s.key in t.suppressed
    ensures IsFault(s)
    ensures exists address, cause :: IsFaultAt(s, address) && DerivedSignal(address, cause) in t.derived
  {
    hide DerivedSignal, SourceAddress;
    assert ExplainedKey(signals, t, s.key);
    var f, address, cause :|
      f in signals && f.key == s.key && IsFaultAt(f, address) && DerivedSignal(address, cause) in t.derived;
    SameKeySameSignal(signals, f, s);
  }

  /** What correlation does to a list of base signals. */
  ghost predicate LosesNothing(signals: seq<Signal>, out: seq<Signal>) {
    && (forall s :: s in signals && !IsFault(s) ==> s in out)
    && (forall s :: s in signals && IsFault(s) ==> s in out || Replaced(out, s))
    && (forall d, address, cause ::
          d in out && d !in signals && d == DerivedSignal(address, cause) ==> Accuses(signals, d))
    && (forall d :: d in out && d !in signals ==> IsAdded(d))
  }

  ghost predicate Replaced(out: seq<Signal>, fault: Signal) {
    exists d :: d in out && Replaces(d, fault)
  }

  /** A signal of this layer. */
  ghost predicate IsAdded(d: Signal) {
    (exists address, cause :: d == DerivedSignal(address, cause)) || (exists t :: d == ServiceSignal(t))
  }

  lemma CanonicalSourceIsSame(s: Signal, address: nat)
    requires Canonical(s) && IsFaultAt(s, address)
    ensures s.meta.source == SensorSource(address)
  {
    hide Decimal;
    var n: nat :| 1 <= n <= 247 && s.meta.source == SensorSource(n);
    SourceReadsBack(n);
  }

  lemma ServiceIsNotDerived(t: Trouble, address: nat, cause: Cause)
    ensures ServiceSignal(t) != DerivedSignal(address, cause)
    ensures ServiceKey(t) != DerivedKey(address, cause)
  {
    hide Decimal, SensorSource;
    assert ServiceCode(t)[0] == 'S' && Code(cause)[0] == 'K';
    assert ServiceKey(t)[2] == 'r' && DerivedKey(address, cause)[2] == 'n';
  }

  /** For base signals with distinct keys and canonical fault sources: what is no fault
      passes; a fault passes or is replaced by a cause with the same source; and a cause
      is derived only for an address with a fault. */
  lemma CorrelationLosesNothing(signals: seq<Signal>, state: MonitorState, settings: Settings, nowMs: int)
    requires AR.DistinctKeys(signals) && CanonicalFaults(signals)
    ensures LosesNothing(signals, Correlate(signals, state, settings, nowMs).0)
  {
    if state.available && state.snapshot.Some? && state.snapshot.value.network.Some? &&
       state.snapshot.value.network.value.Healthy()
    {
      var grace := GraceElapsed(state.snapshot.value, settings, nowMs);
      TallyIsExplained(signals, state.snapshot.value.nodes, grace);
      TallyLosesNothing(signals, Tallied(signals, state.snapshot.value.nodes, grace));
      hide LosesNothing, Without, Tallied;
    } else {
      var added: seq<Signal> :=
        if !state.available then AgentSignals(state, settings)
        else if state.snapshot.Some? && state.snapshot.value.network.Some?
        then NetworkSignals(state.snapshot.value.network.value) else [];
      assert Correlate(signals, state, settings, nowMs).0 == signals + added;
      AddedAreService(state, settings);
      hide Correlate, NetworkSignals, AgentSignals;
      ServiceLosesNothing(signals, added);
    }
  }

  ghost predicate AllService(added: seq<Signal>) {
    forall d :: d in added ==> exists t :: d == ServiceSignal(t)
  }

  lemma AddedAreService(state: MonitorState, settings: Settings)
    ensures AllService([]) && AllService(AgentSignals(state, settings))
    ensures state.snapshot.Some? && state.snapshot.value.network.Some? ==>
              AllService(NetworkSignals(state.snapshot.value.network.value))
  {
    hide ServiceSignal;
  }

  lemma ServiceLosesNothing(signals: seq<Signal>, added: seq<Signal>)
    requires AllService(added)
    ensures LosesNothing(signals, signals + added)
  {
    hide ServiceSignal, DerivedSignal, IsFault;
    forall t, address, cause ensures ServiceSignal(t) != DerivedSignal(address, cause) {
      ServiceIsNotDerived(t, address, cause);
    }
  }

  lemma TallyLosesNothing(signals: seq<Signal>, t: Tally)
    requires AR.DistinctKeys(signals) && CanonicalFaults(signals) && Explained(signals, t)
    ensures LosesNothing(signals, Without(signals, t.suppressed) + t.derived)
  {
    hide DerivedSignal, SourceAddress, Canonical;
    var out := Without(signals, t.suppressed) + t.derived;
    forall s ensures s in Without(signals, t.suppressed) <==> s in signals && s.key !in t.suppressed {
      WithoutHolds(signals, t.suppressed, s);
    }
    forall s | s in signals && s.key in t.suppressed ensures IsFault(s) && Replaced(out, s) {
      OnlyFaultsAreSuppressed(signals, t, s);
      var address, cause :| IsFaultAt(s, address) && DerivedSignal(address, cause) in t.derived;
      CanonicalSourceIsSame(s, address);
      DerivedSource(address, cause);
      assert Replaces(DerivedSignal(address, cause), s);
      assert DerivedSignal(address, cause) in out;
    }
    forall d | d in out && d !in signals ensures Accuses(signals, d) && IsAdded(d) {
      assert d in t.derived;
    }
  }

  lemma DerivedSource(address: nat, cause: Cause)
    ensures DerivedSignal(address, cause).meta.source == SensorSource(address)
  {
  }

  // ----- after reconcile every faulty address has an alert

  /** No base signal uses a key of this layer. */
  ghost predicate Separate(signals: seq<Signal>) {
    && (forall s, address, cause :: s in signals ==> s.key != DerivedKey(address, cause))
    && (forall s, t :: s in signals ==> s.key != ServiceKey(t))
  }

  /** A derived key names its address. */
  lemma DerivedKeyNamesAddress(a: nat, c: Cause, b: nat, d: Cause)
    requires DerivedKey(a, c) == DerivedKey(b, d)
    ensures a == b
  {
    var x, y := Decimal(a) + Suffix(c), Decimal(b) + Suffix(d);
    assert x == DerivedKey(a, c)[|NODE_KEY|..] && y == DerivedKey(b, d)[|NODE_KEY|..];
    DecimalReadsBack(a);
    DecimalReadsBack(b);
    assert x[|Decimal(a)|] == ':' && y[|Decimal(b)|] == ':';
    assert forall i :: 0 <= i < |Decimal(a)| ==> IsDigit(x[i]);
    assert forall i :: 0 <= i < |Decimal(b)| ==> IsDigit(y[i]);
    hide Decimal, Suffix, Number;
    assert |Decimal(a)| == |Decimal(b)|;
    assert x[..|Decimal(a)|] == Decimal(a) && y[..|Decimal(b)|] == Decimal(b);
  }

  /** A signal of the result with the key of a base signal is that signal; one with the key
      of a cause is a cause for the same source. */
  lemma SameKeySameSource(signals: seq<Signal>, out: seq<Signal>, x: Signal, y: Signal)
    requires AR.DistinctKeys(signals) && Separate(signals) && LosesNothing(signals, out)
    requires x in out && y in out && x.key == y.key
    requires x in signals || exists address, cause :: x == DerivedSignal(address, cause)
    ensures x.meta.source == y.meta.source
    ensures if x in signals then y == x else IsCause(y)
  {
    hide Decimal, Suffix, Code, ServiceKey, ServiceCode, SensorSource, IsFault;
    if x in signals && y in signals {
      SameKeySameSignal(signals, x, y);
    } else if x !in signals && y !in signals {
      var a, c :| x == DerivedSignal(a, c);
      if b, d :| y == DerivedSignal(b, d) {
        DerivedKeyNamesAddress(a, c, b, d);
      } else {
        var t :| y == ServiceSignal(t);
        ServiceIsNotDerived(t, a, c);
      }
    }
  }

  ghost predicate IsCause(d: Signal) {
    exists address, cause :: d == DerivedSignal(address, cause)
  }

  lemma {:induction false} ByKeyIsWithin(signals: seq<Signal>)
    ensures forall s :: s in AR.ByKey(signals) ==> s in signals
    decreases |signals|
  {
    if signals != [] {
      var front, last := signals[..|signals| - 1], signals[|signals| - 1];
      assert signals == front + [last];
      ByKeyIsWithin(front);
      hide AR.PositionOf;
      forall s | s in AR.PutSignal(AR.ByKey(front), last) ensures s in AR.ByKey(front) || s == last {}
    }
  }

  /** The record carries the data of this fault, or of a KAMOD cause with the same source. */
  ghost predicate TellsOf(r: Record, fault: Signal) {
    (r.key == fault.key && r.meta == fault.meta) || exists d :: Replaces(d, fault) && r.key == d.key && r.meta == d.meta
  }

  /** After a reconcile, every production fault has an active alert that tells of it: its
      own, or one of a cause at the same sensor, whatever the service plane reports. */
  lemma EveryFaultHasActiveAlert(
    reg: AR.Registry, signals: seq<Signal>, state: MonitorState, settings: Settings, nowMs: int, now: Stamp,
    fault: Signal)
    requires AR.Sound(reg)
    requires AR.DistinctKeys(signals) && CanonicalFaults(signals) && Separate(signals)
    requires fault in signals && IsFault(fault)
    ensures var after := AR.Reconcile(reg, Correlate(signals, state, settings, nowMs).0, now);
            exists r :: r in AR.ActiveView(after) && TellsOf(r, fault)
  {
    CorrelationLosesNothing(signals, state, settings, nowMs);
    var out := Correlate(signals, state, settings, nowMs).0;
    hide *;
    var y := KeptByKey(signals, out, fault);
    ReconcileShows(reg, out, now, y);
    var after := AR.Reconcile(reg, out, now);
    var r :| r in AR.ActiveView(after) && r.key == y.key && r.meta == y.meta;
    RecordTells(r, y, fault);
  }

  /** The signal tells of the fault: the fault itself, or a cause with the same source. */
  ghost predicate SpeaksFor(y: Signal, fault: Signal) {
    y == fault || Replaces(y, fault)
  }

  lemma RecordTells(r: Record, y: Signal, fault: Signal)
    requires r.key == y.key && r.meta == y.meta && SpeaksFor(y, fault)
    ensures TellsOf(r, fault)
  {
    hide DerivedSignal;
  }

  /** The list without repeated keys still holds a signal that tells of the fault. */
  lemma KeptByKey(signals: seq<Signal>, out: seq<Signal>, fault: Signal) returns (y: Signal)
    requires AR.DistinctKeys(signals) && Separate(signals) && LosesNothing(signals, out)
    requires fault in signals && IsFault(fault)
    ensures y in AR.ByKey(out) && SpeaksFor(y, fault)
  {
    var x := SpokenFor(signals, out, fault);
    hide *;
    ByKeyIsWithin(out);
    AlertRuns.ByKeyDistinct(out);
    KeyIsListed(out, x);
    y :| y in AR.ByKey(out) && y.key == x.key;
    StillSpeaks(signals, out, x, y, fault);
  }

  lemma StillSpeaks(signals: seq<Signal>, out: seq<Signal>, x: Signal, y: Signal, fault: Signal)
    requires AR.DistinctKeys(signals) && Separate(signals) && LosesNothing(signals, out)
    requires fault in signals && SpeaksFor(x, fault) && x in out && y in out && x.key == y.key
    ensures SpeaksFor(y, fault)
  {
    hide LosesNothing, DerivedSignal;
    if x != fault { CausesAreNotBase(signals); }
    SameKeySameSource(signals, out, x, y);
  }

  lemma KeyIsListed(out: seq<Signal>, x: Signal)
    requires x in out
    ensures x.key in AR.Keys(out)
  {
  }

  /** The correlated list holds the fault or a cause with its source. */
  lemma SpokenFor(signals: seq<Signal>, out: seq<Signal>, fault: Signal) returns (x: Signal)
    requires LosesNothing(signals, out) && fault in signals && IsFault(fault)
    ensures x in out && SpeaksFor(x, fault)
  {
    hide DerivedSignal, IsFault;
    if fault in out {
      x := fault;
    } else {
      assert Replaced(out, fault);
      x :| x in out && Replaces(x, fault);
    }
  }

  lemma CausesAreNotBase(signals: seq<Signal>)
    requires Separate(signals)
    ensures forall d :: IsCause(d) ==> d !in signals
  {
    hide Decimal, Suffix, Code;
  }

  lemma ReconcileShows(reg: AR.Registry, out: seq<Signal>, now: Stamp, y: Signal)
    requires AR.Sound(reg) && y in AR.ByKey(out)
    ensures exists r :: r in AR.ActiveView(AR.Reconcile(reg, out, now)) && r.key == y.key && r.meta == y.meta
  {
    hide AR.ByKey, AR.Reconcile, AR.LedgerReconcile, AR.Tracked, AR.Numbered, AR.Watch;
    var after := AR.Reconcile(reg, out, now);
    AlertRuns.ReconcileRefines(reg, out, now);
    AlertRuns.QueriesShowLedger(after, 0);
    AlertRuns.SeenKeepsShape(reg);
    AlertGuarantees.ReconcileMeaning(AR.Seen(reg), out, now);
    var ledger := AR.Seen(after);
    assert AlertGuarantees.Shows(ledger, y, AlertGuarantees.CountOf(AR.Seen(reg), y.key));
    var r := ledger[AR.ActiveWith(ledger, y.key)];
    assert r in OnlyActive(ledger);
  }

  // ----- the object

  class ServicePlaneCorrelatingAlertRegistry {
    const delegate: AlertRegistryService.AlertRegistry
    const settings: Settings
    var lastCorrelation: Option<Diagnostics>

    constructor (delegate: AlertRegistryService.AlertRegistry, settings: Settings)
      requires settings.failureThreshold >= 1 && settings.graceMs >= 0
      ensures this.delegate == delegate && this.settings == settings && lastCorrelation == None
    {
      this.delegate, this.settings, lastCorrelation := delegate, settings, None;
    }

    /** production_by_address. */
    method FaultsByAddress(signals: seq<Signal>) returns (byAddress: map<int, seq<Signal>>)
      ensures forall a: nat :: FaultsAt(signals, a) == if a in byAddress then byAddress[a] else []
      ensures forall a :: a in byAddress ==> byAddress[a] != []
    {
      hide SourceAddress;
      byAddress := map[];
      var i := 0;
      while i < |signals|
        invariant 0 <= i <= |signals|
        invariant forall a: nat :: FaultsAt(signals[..i], a) == if a in byAddress then byAddress[a] else []
        invariant forall a :: a in byAddress ==> byAddress[a] != []
      {
        assert signals[..i + 1][..i] == signals[..i];
        var s := signals[i];
        if IsFault(s) {
          var address := SourceAddress(s.meta.source);
          match address {
            case None =>
            case Some(a) =>
              byAddress := byAddress[a := (if a in byAddress then byAddress[a] else []) + [s]];
          }
        }
        i := i + 1;
      }
      assert signals[..i] == signals;
    }

    /** The loop over the nodes. */
    method TallyNodes(signals: seq<Signal>, nodes: seq<Node>, graceElapsed: bool) returns (t: Tally)
      ensures t == Tallied(signals, nodes, graceElapsed)
    {
      hide FaultsAt, DerivedSignal;
      var byAddress := FaultsByAddress(signals);
      t := Tally([], {}, {});
      var i := 0;
      while i < |nodes|
        invariant 0 <= i <= |nodes|
        invariant t == Tallied(signals, nodes[..i], graceElapsed)
      {
        assert nodes[..i + 1][..i] == nodes[..i];
        var node := nodes[i];
        if node.nodeId != "" {
          var address := node.Address();
          var faults: seq<Signal> := [];
          match address {
            case None =>
            case Some(a) => faults := if a in byAddress then byAddress[a] else [];
          }
          var verdict := Judge(node, faults != [], graceElapsed);
          match verdict {
            case Nothing =>
            case ServiceOnly => t := t.(serviceOnly := t.serviceOnly + {node.nodeId});
            case RootCause(a, cause) =>
              t := t.(derived := t.derived + [DerivedSignal(a, cause)], suppressed := t.suppressed + AR.Keys(faults));
          }
        }
        i := i + 1;
      }
      assert nodes[..i] == nodes;
    }

    /** Correlates, remembers the diagnostics, and lets the registry reconcile the result. */
    method Reconcile(signals: seq<Signal>, state: MonitorState, nowMs: int, now: Stamp) returns (r: seq<Record>)
      requires delegate.Valid()
      modifies this, delegate, delegate.store
      ensures delegate.Valid()
      ensures var (out, diagnostics) := Correlate(signals, state, settings, nowMs);
              && delegate.View() == AR.Reconcile(old(delegate.View()), out, now)
              && lastCorrelation == Some(diagnostics)
      ensures r == AR.ActiveView(delegate.View())
    {
      hide AR.Reconcile, AR.ActiveView, AR.Sound, Tallied, Without, NetworkSignals, AgentSignals, Report;
      var out, reason, t := signals, Complete, Tally([], {}, {});
      if !state.available {
        t, reason := t.(derived := AgentSignals(state, settings)), AgentUnavailable;
        out := signals + t.derived;
      } else {
        match state.snapshot {
          case None => reason := NoSnapshot;
          case Some(snapshot) =>
            match snapshot.network {
              case None => reason := NoNetwork;
              case Some(network) =>
                if !network.Healthy() {
                  t, reason := t.(derived := NetworkSignals(network)), NetworkDegraded;
                  out := signals + t.derived;
                } else {
                  t := TallyNodes(signals, snapshot.nodes, GraceElapsed(snapshot, settings, nowMs));
                  out := Without(signals, t.suppressed) + t.derived;
                }
            }
        }
      }
      lastCorrelation := Some(Report(t, reason));
      r := delegate.Reconcile(out, now);
    }
  }
}
