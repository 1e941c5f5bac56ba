/** The heartbeat path as the program has it: ReplayStore and HeartbeatReceiver of
    src/ventilation_core/service_heartbeat.py, ServiceAgentState and ServiceAgent of
    src/ventilation_core/service_agent.py.  The agent keeps the two files in step: the
    same nodes are online in both, and the counters are those of the admitted trace. */
module HeartbeatObjects {
  import opened Common
  import opened Heartbeat

  /** A registered node, by its position in the key registry. */
  type Node = nat

  ghost predicate Distinct(ids: seq<Node>) {
    forall i, j :: 0 <= i < j < |ids| ==> ids[i] != ids[j]
  }

  lemma NotBefore(ids: seq<Node>, n: nat)
    requires Distinct(ids) && n < |ids|
    ensures ids[n] !in ids[..n] && ids[..n + 1] == ids[..n] + [ids[n]]
  {
  }

  class ReplayStore {
    const limit: nat
    var records: map<Node, ReplayRecord>
    /** The JSON file of each node. */
    var disk: map<Node, ReplayRecord>

    /** What is loaded for a node: cached, stored, or nothing yet. */
    function Current(node: Node): ReplayRecord
      reads this
    {
      if node in records then records[node]
      else if node in disk then disk[node]
      else FRESH_RECORD
    }

    /** The cache never runs ahead of the files, so a restart loses nothing. */
    ghost predicate Valid()
      reads this
    {
      forall node :: node in records ==> records[node] == if node in disk then disk[node] else FRESH_RECORD
    }

    constructor (limit: nat)
      ensures Valid() && this.limit == limit && records == map[] && disk == map[]
    {
      this.limit, records, disk := limit, map[], map[];
    }

    method Admit(node: Node, b: Beat) returns (r: Result<(), Rejection>)
      requires Valid()
      modifies this
      ensures Valid()
      ensures var verdict := Accept(old(Current(node)), b, limit);
              match verdict
              case Failure(e) => r == Failure(e) && Current(node) == old(Current(node)) && disk == old(disk)
              case Success(record) =>
                r == Success(()) && Current(node) == record && node in disk && disk[node] == record
      ensures forall other :: other != node ==> Current(other) == old(Current(other))
    {
      var record := Current(node);
      records := records[node := record];
      if Some(b.boot) == record.boot {
        if b.seq_ <= record.maxSeq {
          return Failure(ReplayedSequence);
        }
        record := record.(maxSeq := b.seq_);
      } else {
        if b.boot in record.previous {
          return Failure(ClosedSession);
        }
        if record.boot.Some? {
          record := record.(previous := KeepLast(record.previous + [record.boot.value], limit));
        }
        record := record.(boot := Some(b.boot), maxSeq := b.seq_);
      }
      records := records[node := record];
      disk := disk[node := record];
      r := Success(());
    }
  }

  datatype NodeRuntime = NodeRuntime(lastReceived: int, online: bool, lastBeat: Option<Beat>)

  class HeartbeatReceiver {
    const nodes: seq<Node>
    const staleAfter: nat
    const replay: ReplayStore
    var runtime: map<Node, NodeRuntime>

    ghost predicate Valid()
      reads this, replay
    {
      && replay.Valid()
      && (forall node :: node in runtime <==> node in nodes)
      && (Distinct(nodes))
    }

    constructor (nodes: seq<Node>, staleAfter: nat, limit: nat)
      requires staleAfter > 0
      requires Distinct(nodes)
      ensures Valid() && fresh(replay) && this.nodes == nodes && this.staleAfter == staleAfter
      ensures replay.limit == limit && (forall node :: replay.Current(node) == FRESH_RECORD)
      ensures forall node :: node in nodes ==> runtime[node] == NodeRuntime(0, false, None)
    {
      this.nodes, this.staleAfter := nodes, staleAfter;
      replay := new ReplayStore(limit);
      runtime := map node | node in nodes :: NodeRuntime(0, false, None);
    }

    /** An authenticated heartbeat of a registered node. */
    method ProcessDatagram(node: Node, b: Beat, now: int) returns (r: Result<(), Rejection>)
      requires Valid() && node in nodes
      modifies this, replay
      ensures Valid()
      ensures var verdict := Accept(old(replay.Current(node)), b, replay.limit);
              match verdict
              case Failure(e) =>
                r == Failure(e) && runtime == old(runtime) && replay.Current(node) == old(replay.Current(node))
              case Success(record) =>
                && r == Success(()) && replay.Current(node) == record
                && runtime == old(runtime)[node := NodeRuntime(now, true, Some(b))]
      ensures forall other :: other != node ==> replay.Current(other) == old(replay.Current(other))
    {
      r := replay.Admit(node, b);
      if r.Success? {
        runtime := runtime[node := NodeRuntime(now, true, Some(b))];
      }
    }

    predicate Stale(r: NodeRuntime, now: int) {
      r.online && now - r.lastReceived > staleAfter
    }

    /** Exactly the nodes go offline that are online and have not been heard of for longer
        than the limit, each listed once. */
    method ExpireStaleNodes(now: int) returns (expired: seq<Node>)
      requires Valid()
      modifies this
      ensures Valid()
      ensures forall node :: node in expired <==>
        node in nodes && old(runtime)[node].online && now - old(runtime)[node].lastReceived > staleAfter
      ensures Distinct(expired)
      ensures forall node :: node in runtime ==>
        runtime[node] == if node in expired then old(runtime)[node].(online := false) else old(runtime)[node]
    {
      expired := [];
      for n := 0 to |nodes|
        invariant forall node :: node in runtime <==> node in nodes
        invariant forall node :: node in expired <==> node in nodes[..n] && Stale(old(runtime)[node], now)
        invariant Distinct(expired)
        invariant forall node :: node in runtime ==>
          runtime[node] == if node in expired then old(runtime)[node].(online := false) else old(runtime)[node]
      {
        var node := nodes[n];
        NotBefore(nodes, n);
        if Stale(runtime[node], now) {
          runtime := runtime[node := runtime[node].(online := false)];
          expired := expired + [node];
        }
      }
      assert nodes[..|nodes|] == nodes;
    }
  }

  class ServiceAgentState {
    var online: map<Node, bool>
    var diagnostics: map<Node, Diagnostics>

    ghost predicate Valid()
      reads this
    {
      forall node :: node in online <==> node in diagnostics
    }

    constructor (nodes: seq<Node>)
      ensures Valid() && forall node :: node in online <==> node in nodes
      ensures forall node :: node in nodes ==> !online[node] && diagnostics[node] == FRESH
    {
      online := map node | node in nodes :: false;
      diagnostics := map node | node in nodes :: FRESH;
    }

    method Note(node: Node, b: Beat, received: int)
      requires Valid() && node in online
      modifies this
      ensures Valid()
      ensures online == old(online)[node := true]
      ensures diagnostics == old(diagnostics)[node := Record(old(diagnostics)[node], old(online)[node], b, received)]
    {
      var d := NoteReceipt(diagnostics[node], online[node], received);
      if d.lastBoot == Some(b.boot) && d.lastSeq.Some? {
        var gap := Max(0, b.seq_ - d.lastSeq.value - 1);
        d := d.(lastGap := gap);
        if gap > 0 {
          d := d.(gapEvents := d.gapEvents + 1, missing := d.missing + gap, maxGap := Max(d.maxGap, gap));
        }
      } else if d.lastBoot.Some? && d.lastBoot != Some(b.boot) {
        d := d.(bootChanges := d.bootChanges + 1, lastGap := 0);
      } else {
        d := d.(lastGap := 0);
      }
      d := d.(lastBoot := Some(b.boot), lastSeq := Some(b.seq_));
      diagnostics := diagnostics[node := d];
      online := online[node := true];
    }

    method MarkOne(node: Node, now: int)
      requires Valid()
      modifies this
      ensures Valid() && forall other :: other in online <==> other in old(online)
      ensures forall other :: other in online && other != node ==>
        online[other] == old(online)[other] && diagnostics[other] == old(diagnostics)[other]
      ensures node in online ==> !online[node]
      ensures node in online ==>
        diagnostics[node] ==
        if old(online)[node] then WentOffline(old(diagnostics)[node], now) else old(diagnostics)[node]
    {
      if node in online {
        if online[node] {
          diagnostics := diagnostics[node := WentOffline(diagnostics[node], now)];
        }
        online := online[node := false];
      }
    }

    /** Nodes that are not registered are skipped; an online node counts one transition. */
    method MarkOffline(ids: seq<Node>, now: int)
      requires Valid()
      requires Distinct(ids)
      modifies this
      ensures Valid() && forall node :: node in online <==> node in old(online)
      ensures forall node :: node in online ==>
        && online[node] == (old(online)[node] && node !in ids)
        && diagnostics[node] == if node in ids && old(online)[node] then WentOffline(old(diagnostics)[node], now)
                                else old(diagnostics)[node]
    {
      hide WentOffline, Distinct;
      for n := 0 to |ids|
        invariant Valid() && forall node :: node in online <==> node in old(online)
        invariant forall node :: node in online ==>
          && online[node] == (old(online)[node] && node !in ids[..n])
          && diagnostics[node] == if node in ids[..n] && old(online)[node] then WentOffline(old(diagnostics)[node], now)
                                  else old(diagnostics)[node]
      {
        NotBefore(ids, n);
        MarkOne(ids[n], now);
      }
      assert ids[..|ids|] == ids;
    }
  }

  function WentOffline(d: Diagnostics, now: int): Diagnostics {
    d.(offlineTransitions := d.offlineTransitions + 1, lastOffline := Some(now))
  }

  /** The counters that going offline leaves alone. */
  function Core(d: Diagnostics): Diagnostics {
    d.(offlineTransitions := 0, lastOffline := None)
  }

  lemma CoreOfRecord(d: Diagnostics, wasOnline: bool, b: Beat, received: int)
    ensures Core(Record(d, wasOnline, b, received)) == Record(Core(d), wasOnline, b, received)
  {
  }

  /** One node in both files: the same availability, and the counters and the replay
      record of the trace admitted so far. */
  ghost predicate InStep(
    runs: bool, online: bool, d: Diagnostics, record: ReplayRecord, trace: seq<Arrival>, limit: nat)
  {
    && runs == online
    && d.onlineTransitions == d.offlineTransitions + (if online then 1 else 0)
    && AcceptAll(FRESH_RECORD, Beats(trace), limit) == Success(record)
    && Core(d) == RecordAll(FRESH, trace)
  }

  lemma StartInStep(limit: nat)
    ensures InStep(false, false, FRESH, FRESH_RECORD, [], limit)
  {
  }

  lemma BeatKeepsStep(
    online: bool, d: Diagnostics, record: ReplayRecord, trace: seq<Arrival>, limit: nat, b: Beat, received: int)
    requires InStep(online, online, d, record, trace, limit)
    requires Accept(record, b, limit).Success?
    ensures InStep(true, true, Record(d, online, b, received), Accept(record, b, limit).value,
                   trace + [Arrival(b, online, received)], limit)
  {
    var longer := trace + [Arrival(b, online, received)];
    CoreOfRecord(d, online, b, received);
    assert longer[..|longer| - 1] == trace;
    assert Beats(longer)[..|longer| - 1] == Beats(trace);
  }

  lemma ExpiryKeepsStep(d: Diagnostics, record: ReplayRecord, trace: seq<Arrival>, limit: nat, now: int)
    requires InStep(true, true, d, record, trace, limit)
    ensures InStep(false, false, WentOffline(d, now), record, trace, limit)
  {
  }

  class ServiceAgent {
    const receiver: HeartbeatReceiver
    const state: ServiceAgentState
    /** What has been admitted and recorded, per node. */
    ghost var arrivals: map<Node, seq<Arrival>>
    /** When the last heartbeat of a node was accepted, on the clock of the receiver. */
    ghost var heardAt: map<Node, int>

    ghost function Parts(): set<object>
      reads this
    {
      {this, receiver, receiver.replay, state}
    }

    ghost predicate NodeInStep(node: Node)
      reads Parts()
    {
      && node in receiver.runtime && node in state.online && node in state.diagnostics && node in arrivals
      && InStep(receiver.runtime[node].online, state.online[node], state.diagnostics[node],
                receiver.replay.Current(node), arrivals[node], receiver.replay.limit)
    }

    ghost predicate Valid()
      reads Parts()
    {
      && receiver.Valid() && state.Valid()
      && (forall node :: node in arrivals <==> node in receiver.nodes)
      && (forall node :: node in state.online <==> node in receiver.nodes)
      && (forall node :: node in receiver.nodes ==> NodeInStep(node))
      && (forall node :: node in receiver.nodes && receiver.runtime[node].online ==>
            node in heardAt && receiver.runtime[node].lastReceived == heardAt[node])
    }

    constructor (nodes: seq<Node>, staleAfter: nat, limit: nat)
      requires staleAfter > 0
      requires Distinct(nodes)
      ensures Valid() && fresh(Parts()) && receiver.nodes == nodes
      ensures forall node :: node in arrivals ==> arrivals[node] == []
    {
      hide InStep, Distinct;
      receiver := new HeartbeatReceiver(nodes, staleAfter, limit);
      state := new ServiceAgentState(nodes);
      arrivals := map node | node in nodes :: [];
      heardAt := map[];
      new;
      hide ReplayStore.Current, ReplayStore.Valid, HeartbeatReceiver.Valid, ServiceAgentState.Valid;
      StartsValid();
    }

    lemma StartsValid()
      requires receiver.Valid() && state.Valid()
      requires forall node :: node in arrivals <==> node in receiver.nodes
      requires forall node :: node in state.online <==> node in receiver.nodes
      requires forall node :: node in arrivals ==> arrivals[node] == []
      requires forall node :: node in receiver.nodes ==>
        && node in receiver.runtime && receiver.runtime[node] == NodeRuntime(0, false, None)
        && node in state.diagnostics && !state.online[node] && state.diagnostics[node] == FRESH
        && receiver.replay.Current(node) == FRESH_RECORD
      ensures Valid()
    {
      hide InStep, ReplayStore.Current, HeartbeatReceiver.Valid, ServiceAgentState.Valid;
      StartInStep(receiver.replay.limit);
    }

    /** Counts a heartbeat the receiver has just admitted. */
    method Count(node: Node, b: Beat, received: int, ghost record: ReplayRecord)
      requires receiver.Valid() && state.Valid() && node in receiver.nodes && receiver.runtime[node].online
      requires forall n :: n in arrivals <==> n in receiver.nodes
      requires forall n :: n in state.online <==> n in receiver.nodes
      requires forall n :: n in receiver.nodes && n != node ==> NodeInStep(n)
      requires InStep(state.online[node], state.online[node], state.diagnostics[node], record, arrivals[node],
                      receiver.replay.limit)
      requires Accept(record, b, receiver.replay.limit) == Success(receiver.replay.Current(node))
      requires forall n :: n in receiver.nodes && receiver.runtime[n].online ==>
        n in heardAt && receiver.runtime[n].lastReceived == heardAt[n]
      modifies this`arrivals, state
      ensures Valid()
      ensures arrivals[node] == old(arrivals[node]) + [Arrival(b, old(state.online[node]), received)]
      ensures forall n :: n in arrivals && n != node ==> arrivals[n] == old(arrivals)[n]
    {
      hide InStep, Accept, Record, ReplayStore.Current, ReplayStore.Valid, Distinct;
      ghost var trace, d, online := arrivals[node], state.diagnostics[node], state.online[node];
      BeatKeepsStep(online, d, record, trace, receiver.replay.limit, b, received);
      state.Note(node, b, received);
      arrivals := arrivals[node := trace + [Arrival(b, online, received)]];
      assert NodeInStep(node);
      forall other | other in receiver.nodes ensures NodeInStep(other) {
        assert other != node ==> old(NodeInStep(other));
      }
    }

    /** A rejected heartbeat changes no counter; an admitted one is counted once. */
    method ProcessDatagram(node: Node, b: Beat, now: int, received: int) returns (r: Result<(), Rejection>)
      requires Valid() && node in receiver.nodes
      modifies Parts()
      ensures Valid()
      ensures r.Success? <==> Accept(old(receiver.replay.Current(node)), b, receiver.replay.limit).Success?
      ensures r.Failure? ==> arrivals == old(arrivals) && state.diagnostics == old(state.diagnostics)
      ensures heardAt == if r.Success? then old(heardAt)[node := now] else old(heardAt)
      ensures r.Success? ==> arrivals[node] == old(arrivals[node]) + [Arrival(b, old(state.online[node]), received)]
      ensures forall n :: n in arrivals && n != node ==> arrivals[n] == old(arrivals)[n]
    {
      hide InStep, Accept, ReplayStore.Current, ReplayStore.Valid, Distinct;
      assert NodeInStep(node);
      ghost var record := receiver.replay.Current(node);
      InStepAgrees(receiver.runtime[node].online, state.online[node], state.diagnostics[node], record,
                   arrivals[node], receiver.replay.limit);
      r := receiver.ProcessDatagram(node, b, now);
      forall other | other in receiver.nodes && (other != node || r.Failure?) ensures NodeInStep(other) {
        assert old(NodeInStep(other));
      }
      if r.Success? {
        heardAt := heardAt[node := now];
        Count(node, b, received, record);
      }
    }

    lemma BothOnline()
      requires Valid()
      ensures forall node :: node in receiver.nodes ==>
        && node in receiver.runtime && node in state.online
        && receiver.runtime[node].online == state.online[node]
    {
      hide HeartbeatReceiver.Valid, ServiceAgentState.Valid, ReplayStore.Current;
      forall node | node in receiver.nodes
        ensures node in receiver.runtime && node in state.online
        ensures receiver.runtime[node].online == state.online[node]
      {
        assert NodeInStep(node);
      }
    }

    /** A node expires if and only if it was online and its last accepted heartbeat is older
        than the limit; every other node keeps its state. */
    method ExpireStaleNodes(now: int, nowMs: int) returns (expired: seq<Node>)
      requires Valid()
      modifies Parts()
      ensures Valid() && arrivals == old(arrivals) && heardAt == old(heardAt)
      ensures forall node :: node in expired <==>
        node in receiver.nodes && old(state.online)[node] && node in heardAt &&
        now - heardAt[node] > receiver.staleAfter
      ensures forall node :: node in receiver.nodes ==>
        node in state.online && state.online[node] == (old(state.online)[node] && node !in expired)
    {
      hide InStep, Distinct, ReplayStore.Current, ReplayStore.Valid;
      BothOnline();
      expired := receiver.ExpireStaleNodes(now);
      state.MarkOffline(expired, nowMs);
      forall node | node in receiver.nodes ensures NodeInStep(node) {
        assert old(NodeInStep(node));
        ghost var d := old(state.diagnostics)[node];
        InStepAgrees(old(receiver.runtime)[node].online, old(state.online)[node], d,
                     receiver.replay.Current(node), arrivals[node], receiver.replay.limit);
        if node in expired {
          ExpiryKeepsStep(d, receiver.replay.Current(node), arrivals[node], receiver.replay.limit, nowMs);
        }
      }
    }

    /** Whatever has arrived and expired so far, the counters of a node obey the
        conservation law of the sessions its heartbeats belong to, and online and
        offline transitions differ by the present state. */
    lemma CountersConserve(node: Node)
      requires Valid() && node in arrivals
      ensures var d := state.diagnostics[node];
              && d.accepted + d.missing == Spanned(Beats(arrivals[node]))
              && d.accepted == |arrivals[node]|
              && d.maxGap <= d.missing <= d.gapEvents * d.maxGap
              && d.onlineTransitions - d.offlineTransitions == if receiver.runtime[node].online then 1 else 0
    {
      assert NodeInStep(node);
      Conservation(FRESH_RECORD, arrivals[node], receiver.replay.limit);
    }
  }

  lemma InStepAgrees(runs: bool, online: bool, d: Diagnostics, record: ReplayRecord, trace: seq<Arrival>, limit: nat)
    requires InStep(runs, online, d, record, trace, limit)
    ensures runs == online
  {
  }
}
