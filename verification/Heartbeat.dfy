/** Heartbeat sessions: ReplayStore of src/ventilation_core/service_heartbeat.py and
    the counters of ServiceAgentState in src/ventilation_core/service_agent.py, per
    node, as functions on values, with the conservation law that joins the two files
    and the replay horizon of the boot history. */
module Heartbeat {
  import opened Common

  /** A boot id: sixteen hexadecimal digits, taken as a number. */
  type Boot = nat

  datatype Beat = Beat(boot: Boot, seq_: nat)

  // ----- ReplayStore.accept

  /** No boot stands for the empty text of a record that has accepted nothing yet. */
  datatype ReplayRecord = ReplayRecord(boot: Option<Boot>, maxSeq: int, previous: seq<Boot>)

  const FRESH_RECORD: ReplayRecord := ReplayRecord(None, -1, [])

  datatype Rejection = ReplayedSequence | ClosedSession

  /** Python's list[-limit:], where a limit of zero keeps everything. */
  function KeepLast<T>(s: seq<T>, limit: nat): seq<T> {
    if limit == 0 || limit >= |s| then s else s[|s| - limit..]
  }

  function Accept(r: ReplayRecord, b: Beat, limit: nat): Result<ReplayRecord, Rejection> {
    if Some(b.boot) == r.boot then
      if b.seq_ <= r.maxSeq then Failure(ReplayedSequence) else Success(r.(maxSeq := b.seq_))
    else if b.boot in r.previous then Failure(ClosedSession)
    else
      var previous := if r.boot.None? then r.previous else KeepLast(r.previous + [r.boot.value], limit);
      Success(ReplayRecord(Some(b.boot), b.seq_, previous))
  }

  /** The record after a whole trace of accepted heartbeats. */
  function AcceptAll(r: ReplayRecord, beats: seq<Beat>, limit: nat): Result<ReplayRecord, Rejection> {
    if beats == [] then Success(r)
    else
      var front := AcceptAll(r, beats[..|beats| - 1], limit);
      if front.Failure? then front else Accept(front.value, beats[|beats| - 1], limit)
  }

  ghost predicate Admitted(r: ReplayRecord, beats: seq<Beat>, limit: nat) {
    AcceptAll(r, beats, limit).Success?
  }

  lemma {:induction false} AdmittedPrefix(r: ReplayRecord, beats: seq<Beat>, limit: nat, n: nat)
    requires Admitted(r, beats, limit) && n <= |beats|
    ensures Admitted(r, beats[..n], limit)
  {
    if n == |beats| {
      assert beats[..n] == beats;
    } else {
      AdmittedPrefix(r, beats[..|beats| - 1], limit, n);
      assert beats[..|beats| - 1][..n] == beats[..n];
    }
  }

  /** The record is at the last accepted heartbeat. */
  lemma RecordAtLast(r: ReplayRecord, beats: seq<Beat>, limit: nat)
    requires Admitted(r, beats, limit) && beats != []
    ensures var end := AcceptAll(r, beats, limit).value;
            end.boot == Some(beats[|beats| - 1].boot) && end.maxSeq == beats[|beats| - 1].seq_
  {
  }

  /** Consecutive accepted heartbeats of one boot have strictly increasing numbers. */
  lemma SequencesIncrease(r: ReplayRecord, beats: seq<Beat>, limit: nat, i: nat)
    requires Admitted(r, beats, limit) && i + 1 < |beats| && beats[i].boot == beats[i + 1].boot
    ensures beats[i].seq_ < beats[i + 1].seq_
  {
    AdmittedPrefix(r, beats, limit, i + 2);
    AdmittedPrefix(r, beats, limit, i + 1);
    RecordAtLast(r, beats[..i + 1], limit);
    assert beats[..i + 2][..i + 1] == beats[..i + 1];
  }

  // ----- the horizon of the boot history

  /** The boots of successive sessions: consecutive repetitions removed. */
  function SessionBoots(beats: seq<Beat>): (s: seq<Boot>)
    ensures beats != [] ==> s != [] && s[|s| - 1] == beats[|beats| - 1].boot
    ensures beats == [] ==> s == []
  {
    if beats == [] then []
    else
      var front := SessionBoots(beats[..|beats| - 1]);
      if front != [] && front[|front| - 1] == beats[|beats| - 1].boot then front
      else front + [beats[|beats| - 1].boot]
  }

  /** Any two sessions at most limit + 1 apart are of different boots; with an unlimited
      history (limit zero) all sessions are. */
  ghost predicate Spread(s: seq<Boot>, limit: nat) {
    forall p, q :: 0 <= p < q < |s| && (limit == 0 || q - p <= limit + 1) ==> s[p] != s[q]
  }

  /** The closed-boot list is the tail of the earlier sessions. */
  ghost predicate History(r: ReplayRecord, s: seq<Boot>, limit: nat) {
    if s == [] then r == FRESH_RECORD
    else r.boot == Some(s[|s| - 1]) && r.previous == KeepLast(s[..|s| - 1], limit)
  }

  lemma KeepLastAgain<T>(s: seq<T>, x: T, limit: nat)
    ensures KeepLast(KeepLast(s, limit) + [x], limit) == KeepLast(s + [x], limit)
  {
  }

  function Extended(s: seq<Boot>, b: Boot): seq<Boot> {
    if s != [] && s[|s| - 1] == b then s else s + [b]
  }

  lemma AcceptMovesHistory(r: ReplayRecord, s: seq<Boot>, b: Beat, limit: nat)
    requires History(r, s, limit) && Accept(r, b, limit).Success?
    ensures History(Accept(r, b, limit).value, Extended(s, b.boot), limit)
  {
    if s != [] && s[|s| - 1] != b.boot {
      KeepLastAgain(s[..|s| - 1], s[|s| - 1], limit);
      assert s == s[..|s| - 1] + [s[|s| - 1]];
      assert (s + [b.boot])[..|s|] == s;
      hide KeepLast;
    }
  }

  lemma AcceptKeepsSpread(r: ReplayRecord, s: seq<Boot>, b: Beat, limit: nat)
    requires History(r, s, limit) && Spread(s, limit) && Accept(r, b, limit).Success?
    ensures Spread(Extended(s, b.boot), limit)
  {
    hide KeepLast, Spread, History;
    if s == [] {
      OneSessionIsSpread(b.boot, limit);
    } else if s[|s| - 1] != b.boot {
      HistoryIsAtLast(r, s, limit);
      NewBootIsFar(s, b.boot, r, limit);
    }
  }

  lemma OneSessionIsSpread(b: Boot, limit: nat)
    ensures Spread([] + [b], limit)
  {
  }

  lemma HistoryIsAtLast(r: ReplayRecord, s: seq<Boot>, limit: nat)
    requires s != [] && History(r, s, limit)
    ensures r.boot == Some(s[|s| - 1])
  {
  }

  lemma {:induction false} AcceptKeepsHistory(beats: seq<Beat>, limit: nat)
    requires Admitted(FRESH_RECORD, beats, limit)
    ensures History(AcceptAll(FRESH_RECORD, beats, limit).value, SessionBoots(beats), limit)
    ensures Spread(SessionBoots(beats), limit)
  {
    hide Spread, Accept;
    if beats == [] {
      NoSessionIsSpread(limit);
    } else {
      var front, last := beats[..|beats| - 1], beats[|beats| - 1];
      AcceptKeepsHistory(front, limit);
      var r := AcceptAll(FRESH_RECORD, front, limit).value;
      hide History;
      AcceptMovesHistory(r, SessionBoots(front), last, limit);
      AcceptKeepsSpread(r, SessionBoots(front), last, limit);
    }
  }

  lemma NoSessionIsSpread(limit: nat)
    ensures Spread([], limit)
  {
  }

  lemma NewBootIsFar(s: seq<Boot>, b: Boot, r: ReplayRecord, limit: nat)
    requires s != [] && History(r, s, limit) && Spread(s, limit)
    requires Some(b) != r.boot && b !in r.previous
    ensures Spread(s + [b], limit)
  {
    var closed := s[..|s| - 1];
    forall p | 0 <= p < |s| && (limit == 0 || |s| - p <= limit + 1) ensures s[p] != b {
      if p < |s| - 1 {
        var kept := KeepLast(closed, limit);
        assert kept[p - (|closed| - |kept|)] == closed[p];
      }
    }
  }

  /** A heartbeat goes through if and only if it advances the current session or opens one
      whose boot is not among the latest earlier sessions: nothing else is refused. */
  lemma AcceptedExactlyWhenNew(beats: seq<Beat>, b: Beat, limit: nat)
    requires Admitted(FRESH_RECORD, beats, limit)
    ensures var s := SessionBoots(beats);
            Admitted(FRESH_RECORD, beats + [b], limit) <==>
            beats == [] ||
            (if b.boot == beats[|beats| - 1].boot then b.seq_ > beats[|beats| - 1].seq_
             else b.boot !in KeepLast(s[..|s| - 1], limit))
  {
    assert (beats + [b])[..|beats|] == beats;
    AcceptKeepsHistory(beats, limit);
    hide KeepLast, Spread;
    if beats != [] {
      RecordAtLast(FRESH_RECORD, beats, limit);
    }
  }

  /** The closed-boot list never repeats a boot nor holds the current one. */
  lemma ClosedBootsDistinct(beats: seq<Beat>, limit: nat)
    requires Admitted(FRESH_RECORD, beats, limit)
    ensures var r := AcceptAll(FRESH_RECORD, beats, limit).value;
            && (r.boot.Some? ==> r.boot.value !in r.previous)
            && (forall i, j :: 0 <= i < j < |r.previous| ==> r.previous[i] != r.previous[j])
  {
    AcceptKeepsHistory(beats, limit);
    var s := SessionBoots(beats);
    var r := AcceptAll(FRESH_RECORD, beats, limit).value;
    if s != [] {
      var closed := s[..|s| - 1];
      var kept := KeepLast(closed, limit);
      var cut := |closed| - |kept|;
      forall i | 0 <= i < |kept| ensures kept[i] == s[cut + i] {
      }
    }
  }

  /** Position of the session that heartbeat i belongs to. */
  function SessionOf(beats: seq<Beat>, i: nat): (p: nat)
    requires i < |beats|
    ensures p < |SessionBoots(beats[..i + 1])|
  {
    |SessionBoots(beats[..i + 1])| - 1
  }

  lemma {:induction false} SessionBootsGrow(beats: seq<Beat>, n: nat)
    requires n <= |beats|
    ensures SessionBoots(beats[..n]) <= SessionBoots(beats)
  {
    if n == |beats| {
      assert beats[..n] == beats;
    } else {
      SessionBootsGrow(beats[..|beats| - 1], n);
      assert beats[..|beats| - 1][..n] == beats[..n];
    }
  }

  lemma SessionOfStep(beats: seq<Beat>, i: nat)
    requires i + 1 < |beats|
    ensures SessionOf(beats, i + 1) ==
            SessionOf(beats, i) + if beats[i + 1].boot == beats[i].boot then 0 else 1
  {
    assert beats[..i + 2][..i + 1] == beats[..i + 1];
  }

  lemma SessionOfBoot(beats: seq<Beat>, i: nat)
    requires i < |beats|
    ensures SessionOf(beats, i) < |SessionBoots(beats)| && SessionBoots(beats)[SessionOf(beats, i)] == beats[i].boot
  {
    SessionBootsGrow(beats, i + 1);
    assert beats[..i + 1][i] == beats[i];
  }

  /** Every session between those of heartbeats i and j shows up between them. */
  lemma {:induction false} SessionBetween(beats: seq<Beat>, i: nat, j: nat, p: nat) returns (k: nat)
    requires i < j < |beats| && SessionOf(beats, i) < p < SessionOf(beats, j)
    ensures i < k < j && SessionOf(beats, k) == p
    decreases j
  {
    SessionOfStep(beats, j - 1);
    if SessionOf(beats, j - 1) == p {
      k := j - 1;
    } else {
      k := SessionBetween(beats, i, j - 1, p);
    }
  }

  lemma {:induction false} SessionOfMonotone(beats: seq<Beat>, i: nat, j: nat)
    requires i <= j < |beats|
    ensures SessionOf(beats, i) <= SessionOf(beats, j)
    ensures (exists k :: i < k <= j && beats[k].boot != beats[i].boot) ==> SessionOf(beats, i) < SessionOf(beats, j)
    decreases j
  {
    if i < j {
      SessionOfStep(beats, j - 1);
      SessionOfMonotone(beats, i, j - 1);
      SessionOfBoot(beats, i);
      SessionOfBoot(beats, j - 1);
    }
  }

  function BootsBetween(beats: seq<Beat>, i: nat, j: nat, other: Boot): set<Boot>
    requires i < j < |beats|
  {
    set k | i < k < j && beats[k].boot != other :: beats[k].boot
  }

  lemma {:induction false} DistinctBootsCount(s: seq<Boot>, all: set<Boot>)
    requires forall p, q :: 0 <= p < q < |s| ==> s[p] != s[q]
    requires forall p :: 0 <= p < |s| ==> s[p] in all
    ensures |all| >= |s|
  {
    if s != [] {
      var last := s[|s| - 1];
      DistinctBootsCount(s[..|s| - 1], all - {last});
    }
  }

  /** A boot can come back only after limit + 1 distinct other boots; with an unlimited
      history it never comes back.  So no (boot, sequence) pair is accepted twice within
      that horizon. */
  lemma ReplayHorizon(beats: seq<Beat>, limit: nat, i: nat, j: nat)
    requires Admitted(FRESH_RECORD, beats, limit)
    requires i < j < |beats| && beats[i].boot == beats[j].boot
    requires exists k :: i < k < j && beats[k].boot != beats[i].boot
    ensures limit >= 1 && |BootsBetween(beats, i, j, beats[i].boot)| >= limit + 1
  {
    var s := SessionBoots(beats);
    var b := beats[i].boot;
    AcceptKeepsHistory(beats, limit);
    SessionOfMonotone(beats, i, j);
    SessionOfBoot(beats, i);
    SessionOfBoot(beats, j);
    var p, q := SessionOf(beats, i), SessionOf(beats, j);
    assert p < q && s[p] == s[q];
    var window := s[p + 1..p + limit + 2];
    forall n | 0 <= n < |window| ensures window[n] in BootsBetween(beats, i, j, b) {
      var k := SessionBetween(beats, i, j, p + 1 + n);
      SessionOfBoot(beats, k);
      assert s[p] != s[p + 1 + n];
    }
    DistinctBootsCount(window, BootsBetween(beats, i, j, b));
  }

  /** An accepted pair that repeats an earlier one lies beyond the horizon. */
  lemma NoPairRepeatsWithinHorizon(beats: seq<Beat>, limit: nat, i: nat, j: nat)
    requires Admitted(FRESH_RECORD, beats, limit)
    requires i < j < |beats| && beats[i] == beats[j]
    ensures limit >= 1 && |BootsBetween(beats, i, j, beats[i].boot)| >= limit + 1
  {
    if forall k :: i < k < j ==> beats[k].boot == beats[i].boot {
      OneSessionIncreases(FRESH_RECORD, beats, limit, i, j);
    } else {
      ReplayHorizon(beats, limit, i, j);
    }
  }

  lemma {:induction false} OneSessionIncreases(r: ReplayRecord, beats: seq<Beat>, limit: nat, i: nat, j: nat)
    requires Admitted(r, beats, limit) && i < j < |beats|
    requires forall k :: i < k <= j ==> beats[k].boot == beats[i].boot
    ensures beats[i].seq_ < beats[j].seq_
    decreases j
  {
    SequencesIncrease(r, beats, limit, j - 1);
    if i < j - 1 { OneSessionIncreases(r, beats, limit, i, j - 1); }
  }

  // ----- the counters of ServiceAgentState.record

  datatype Diagnostics = Diagnostics(
    accepted: nat, onlineTransitions: nat, offlineTransitions: nat, bootChanges: nat,
    gapEvents: nat, missing: nat, maxGap: nat, lastGap: nat,
    lastReceiveGap: Option<nat>, maxReceiveGap: nat,
    lastBoot: Option<Boot>, lastSeq: Option<nat>, lastReceived: Option<int>, lastOffline: Option<int>)

  const FRESH: Diagnostics :=
    Diagnostics(0, 0, 0, 0, 0, 0, 0, 0, None, 0, None, None, None, None)

  function NoteReceipt(d: Diagnostics, wasOnline: bool, received: int): Diagnostics {
    var gap := if d.lastReceived.Some? then Some(Max(0, received - d.lastReceived.value)) else None;
    d.(accepted := d.accepted + 1,
       onlineTransitions := if wasOnline then d.onlineTransitions else d.onlineTransitions + 1,
       lastReceiveGap := if gap.Some? then Some(gap.value) else d.lastReceiveGap,
       maxReceiveGap := if gap.Some? then Max(d.maxReceiveGap, gap.value) else d.maxReceiveGap,
       lastReceived := Some(received))
  }

  function NoteGap(d: Diagnostics, gap: nat): Diagnostics {
    if gap == 0 then d.(lastGap := 0)
    else d.(lastGap := gap, gapEvents := d.gapEvents + 1, missing := d.missing + gap, maxGap := Max(d.maxGap, gap))
  }

  function NoteSequence(d: Diagnostics, b: Beat): Diagnostics {
    var counted :=
      if d.lastBoot == Some(b.boot) && d.lastSeq.Some? then NoteGap(d, Max(0, b.seq_ - d.lastSeq.value - 1))
      else if d.lastBoot.Some? && d.lastBoot != Some(b.boot) then d.(bootChanges := d.bootChanges + 1, lastGap := 0)
      else d.(lastGap := 0);
    counted.(lastBoot := Some(b.boot), lastSeq := Some(b.seq_))
  }

  function Record(d: Diagnostics, wasOnline: bool, b: Beat, received: int): Diagnostics {
    NoteSequence(NoteReceipt(d, wasOnline, received), b)
  }

  // ----- conservation

  /** What record may be called with besides the heartbeat. */
  datatype Arrival = Arrival(beat: Beat, wasOnline: bool, received: int)

  function Beats(arrivals: seq<Arrival>): (s: seq<Beat>)
    ensures |s| == |arrivals|
    ensures forall i :: 0 <= i < |s| ==> s[i] == arrivals[i].beat
  {
    seq(|arrivals|, i requires 0 <= i < |arrivals| => arrivals[i].beat)
  }

  function RecordAll(d: Diagnostics, arrivals: seq<Arrival>): Diagnostics {
    if arrivals == [] then d
    else
      var last := arrivals[|arrivals| - 1];
      Record(RecordAll(d, arrivals[..|arrivals| - 1]), last.wasOnline, last.beat, last.received)
  }

  /** Heartbeats a node sent over its sessions, from the first to the last number seen:
      the sum of last - first + 1 over the sessions. */
  function Spanned(beats: seq<Beat>): int {
    var n := |beats|;
    if n == 0 then 0
    else if n == 1 || beats[n - 2].boot != beats[n - 1].boot then Spanned(beats[..n - 1]) + 1
    else Spanned(beats[..n - 1]) + beats[n - 1].seq_ - beats[n - 2].seq_
  }

  /** One session contributes last - first + 1 to the sum. */
  lemma {:induction false} SpannedBySession(beats: seq<Beat>, i: nat, j: nat)
    requires i <= j < |beats|
    requires i == 0 || beats[i - 1].boot != beats[i].boot
    requires forall k :: i <= k <= j ==> beats[k].boot == beats[i].boot
    ensures Spanned(beats[..j + 1]) - Spanned(beats[..i]) == beats[j].seq_ - beats[i].seq_ + 1
    decreases j
  {
    assert beats[..j + 1][..j] == beats[..j];
    if i < j {
      SpannedBySession(beats, i, j - 1);
    }
  }

  ghost predicate GapBounds(d: Diagnostics) {
    d.maxGap <= d.missing <= d.gapEvents * d.maxGap
  }

  lemma GapKeepsBounds(d: Diagnostics, gap: nat)
    requires GapBounds(d)
    ensures GapBounds(NoteGap(d, gap))
  {
    if gap > 0 {
      var top := Max(d.maxGap, gap);
      MultiplyMonotone(d.gapEvents, d.maxGap, top);
      assert (d.gapEvents + 1) * top == d.gapEvents * top + top;
    }
  }

  lemma MultiplyMonotone(n: nat, a: nat, b: nat)
    requires a <= b
    ensures n * a <= n * b
  {
  }

  /** One record: what it adds to accepted plus missing, session by session. */
  lemma RecordAdds(d: Diagnostics, wasOnline: bool, b: Beat, received: int)
    requires GapBounds(d) && (d.lastBoot.Some? <==> d.lastSeq.Some?)
    requires d.lastBoot == Some(b.boot) ==> d.lastSeq.value < b.seq_
    ensures var after := Record(d, wasOnline, b, received);
            && GapBounds(after)
            && after.lastBoot == Some(b.boot) && after.lastSeq == Some(b.seq_)
            && after.accepted == d.accepted + 1
            && after.missing == d.missing + (if d.lastBoot == Some(b.boot) then b.seq_ - d.lastSeq.value - 1 else 0)
            && after.bootChanges == d.bootChanges + (if d.lastBoot.Some? && d.lastBoot != Some(b.boot) then 1 else 0)
  {
    if d.lastBoot == Some(b.boot) {
      GapKeepsBounds(NoteReceipt(d, wasOnline, received), b.seq_ - d.lastSeq.value - 1);
    }
  }

  /** The conservation law over the two files: with heartbeats admitted by the replay
      store, accepted plus missing is exactly what the sessions span, in every prefix. */
  lemma {:induction false} Conservation(r: ReplayRecord, arrivals: seq<Arrival>, limit: nat)
    requires Admitted(r, Beats(arrivals), limit)
    ensures var d := RecordAll(FRESH, arrivals);
            && d.accepted == |arrivals|
            && d.accepted + d.missing == Spanned(Beats(arrivals))
            && (arrivals != [] ==> d.bootChanges + 1 == |SessionBoots(Beats(arrivals))|)
            && GapBounds(d)
            && (if arrivals == [] then d == FRESH
                else d.lastBoot == Some(arrivals[|arrivals| - 1].beat.boot) &&
                     d.lastSeq == Some(arrivals[|arrivals| - 1].beat.seq_))
  {
    if arrivals != [] {
      var n := |arrivals|;
      var front, last := arrivals[..n - 1], arrivals[n - 1];
      var beats := Beats(arrivals);
      assert beats[..n - 1] == Beats(front);
      AdmittedPrefix(r, beats, limit, n - 1);
      Conservation(r, front, limit);
      if n > 1 && beats[n - 2].boot == beats[n - 1].boot {
        SequencesIncrease(r, beats, limit, n - 2);
      }
      RecordAdds(RecordAll(FRESH, front), last.wasOnline, last.beat, last.received);
      hide Record, Admitted, GapBounds;
      SessionCount(beats);
    }
  }

  lemma SessionCount(beats: seq<Beat>)
    requires beats != []
    ensures var n := |beats|;
            |SessionBoots(beats)| == |SessionBoots(beats[..n - 1])| +
              if n > 1 && beats[n - 2].boot == beats[n - 1].boot then 0 else 1
  {
    var front := beats[..|beats| - 1];
    assert |beats| > 1 ==> front[|front| - 1] == beats[|beats| - 2];
  }

  /** In each boot session accepted plus missing is last - first + 1. */
  lemma SessionConservation(r: ReplayRecord, arrivals: seq<Arrival>, limit: nat, i: nat, j: nat)
    requires Admitted(r, Beats(arrivals), limit) && i <= j < |arrivals|
    requires i == 0 || arrivals[i - 1].beat.boot != arrivals[i].beat.boot
    requires forall k :: i <= k <= j ==> arrivals[k].beat.boot == arrivals[i].beat.boot
    ensures var before, after := RecordAll(FRESH, arrivals[..i]), RecordAll(FRESH, arrivals[..j + 1]);
            && after.accepted - before.accepted == j + 1 - i
            && (after.accepted - before.accepted) + (after.missing - before.missing)
                 == arrivals[j].beat.seq_ - arrivals[i].beat.seq_ + 1
  {
    var beats := Beats(arrivals);
    assert Beats(arrivals[..i]) == beats[..i] && Beats(arrivals[..j + 1]) == beats[..j + 1];
    AdmittedPrefix(r, beats, limit, i);
    AdmittedPrefix(r, beats, limit, j + 1);
    Conservation(r, arrivals[..i], limit);
    Conservation(r, arrivals[..j + 1], limit);
    SpannedBySession(beats, i, j);
  }
}
