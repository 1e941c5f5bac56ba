/** What the counters of ServiceAgentState.record say about a whole trace of heartbeats, in
    src/ventilation_core/service_agent.py: each is a number of moments of the trace, or the
    largest or the last of its gaps. */
module HeartbeatCounters {
  import opened Common
  import opened Heartbeat

  /** The numbers left out just before heartbeat k. */
  function Skipped(arrivals: seq<Arrival>, k: nat): int
    requires k < |arrivals|
  {
    if k > 0 && arrivals[k - 1].beat.boot == arrivals[k].beat.boot
    then arrivals[k].beat.seq_ - arrivals[k - 1].beat.seq_ - 1
    else 0
  }

  /** The time that passed before heartbeat k. */
  function Pause(arrivals: seq<Arrival>, k: nat): int
    requires k < |arrivals|
  {
    if k > 0 then arrivals[k].received - arrivals[k - 1].received else 0
  }

  ghost predicate IsTop(top: nat, values: seq<int>) {
    && (forall k :: 0 <= k < |values| ==> values[k] <= top)
    && (top == 0 || exists k :: 0 <= k < |values| && values[k] == top)
  }

  function Gaps(arrivals: seq<Arrival>): (s: seq<int>)
    ensures |s| == |arrivals|
  {
    seq(|arrivals|, k requires 0 <= k < |arrivals| => Skipped(arrivals, k))
  }

  function Pauses(arrivals: seq<Arrival>): (s: seq<int>)
    ensures |s| == |arrivals|
  {
    seq(|arrivals|, k requires 0 <= k < |arrivals| => Pause(arrivals, k))
  }

  function Births(arrivals: seq<Arrival>): set<nat> {
    set k: nat | k < |arrivals| && !arrivals[k].wasOnline
  }

  function Holes(arrivals: seq<Arrival>): set<nat> {
    set k: nat | k < |arrivals| && Skipped(arrivals, k) > 0
  }

  lemma TopOfMore(top: nat, values: seq<int>, more: int)
    requires IsTop(top, values)
    ensures IsTop(if more > top then more else top, values + [more])
  {
    var all := values + [more];
    if more > top { assert all[|values|] == more; }
    else if top > 0 {
      var k :| 0 <= k < |values| && values[k] == top;
      assert all[k] == top;
    }
  }

  /** The trace without its last heartbeat. */
  lemma Front(arrivals: seq<Arrival>)
    requires arrivals != []
    ensures var n := |arrivals| - 1; var front := arrivals[..n];
            && Gaps(arrivals) == Gaps(front) + [Skipped(arrivals, n)]
            && Pauses(arrivals) == Pauses(front) + [Pause(arrivals, n)]
            && |Births(arrivals)| == |Births(front)| + (if arrivals[n].wasOnline then 0 else 1)
            && |Holes(arrivals)| == |Holes(front)| + (if Skipped(arrivals, n) > 0 then 1 else 0)
  {
    var n := |arrivals| - 1;
    var front := arrivals[..n];
    SameBefore(arrivals);
    hide Skipped, Pause;
    assert Births(arrivals) == Births(front) + if arrivals[n].wasOnline then {} else {n};
    HolesGrow(arrivals);
  }

  lemma SameBefore(arrivals: seq<Arrival>)
    requires arrivals != []
    ensures var front := arrivals[..|arrivals| - 1];
            forall k: nat :: k < |front| ==>
              Skipped(arrivals, k) == Skipped(front, k) && Pause(arrivals, k) == Pause(front, k)
  {
  }

  lemma HolesGrow(arrivals: seq<Arrival>)
    requires arrivals != []
    ensures var n := |arrivals| - 1;
            |Holes(arrivals)| == |Holes(arrivals[..n])| + (if Skipped(arrivals, n) > 0 then 1 else 0)
  {
    var n := |arrivals| - 1;
    SameBefore(arrivals);
    hide Skipped;
    assert Holes(arrivals) == Holes(arrivals[..n]) + if Skipped(arrivals, n) > 0 then {n} else {};
  }

  /** What one heartbeat adds. */
  lemma RecordMeans(d: Diagnostics, a: Arrival)
    ensures var after := Record(d, a.wasOnline, a.beat, a.received);
            var gap := if d.lastBoot == Some(a.beat.boot) && d.lastSeq.Some?
                       then a.beat.seq_ - d.lastSeq.value - 1 else 0;
            && after.accepted == d.accepted + 1 && after.offlineTransitions == d.offlineTransitions
            && after.onlineTransitions == d.onlineTransitions + (if a.wasOnline then 0 else 1)
            && after.gapEvents == d.gapEvents + (if gap > 0 then 1 else 0)
            && after.maxGap == (if gap > d.maxGap then gap else d.maxGap) && after.lastGap == Max(0, gap)
            && after.lastBoot == Some(a.beat.boot) && after.lastSeq == Some(a.beat.seq_)
            && after.lastReceived == Some(a.received)
            && (d.lastReceived.None? ==>
                  after.maxReceiveGap == d.maxReceiveGap && after.lastReceiveGap == d.lastReceiveGap)
            && (d.lastReceived.Some? ==>
                  var pause := a.received - d.lastReceived.value;
                  && after.lastReceiveGap == Some(Max(0, pause))
                  && after.maxReceiveGap == if pause > d.maxReceiveGap then pause else d.maxReceiveGap)
  {
  }

  /** Over every trace: online transitions are the heartbeats of a node that was not online,
      gap events those that skip numbers, and the largest and the last gaps are just that. */
  lemma {:induction false} CountersMean(arrivals: seq<Arrival>)
    ensures var d, n := RecordAll(FRESH, arrivals), |arrivals|;
            && d.accepted == n && d.offlineTransitions == 0
            && d.onlineTransitions == |Births(arrivals)|
            && d.gapEvents == |Holes(arrivals)|
            && IsTop(d.maxGap, Gaps(arrivals))
            && IsTop(d.maxReceiveGap, Pauses(arrivals))
            && (n == 0 ==> d == FRESH)
            && (n > 0 ==>
                  && d.lastBoot == Some(arrivals[n - 1].beat.boot) && d.lastSeq == Some(arrivals[n - 1].beat.seq_)
                  && d.lastReceived == Some(arrivals[n - 1].received)
                  && d.lastGap == Max(0, Skipped(arrivals, n - 1))
                  && d.lastReceiveGap == if n == 1 then None else Some(Max(0, Pause(arrivals, n - 1))))
  {
    if arrivals != [] {
      var n := |arrivals| - 1;
      var front := arrivals[..n];
      CountersMean(front);
      Front(arrivals);
      var d := RecordAll(FRESH, front);
      TopOfMore(d.maxGap, Gaps(front), Skipped(arrivals, n));
      TopOfMore(d.maxReceiveGap, Pauses(front), Pause(arrivals, n));
      RecordMeans(d, arrivals[n]);
      hide IsTop, Gaps, Pauses, Births, Holes, Record;
    }
  }
}
