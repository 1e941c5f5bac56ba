/** TachoEstimator of src/ventilation_core/domain/tacho.py over the reals. */
module Tacho {
  import opened Common

  const PULSES_PER_REVOLUTION := 3
  const RPM_PER_HZ: real := 60.0 / (PULSES_PER_REVOLUTION as real)

  datatype Settings = Settings(averagingPeriods: nat, timeout: real, minimum: real)
  {
    predicate Valid() {
      averagingPeriods >= 1 && timeout > 0.0 && minimum > 0.0
    }
  }

  datatype Reading = Reading(frequency: real, rpm: real, sampleCount: nat, age: Option<real>, valid: bool)

  function Stopped(age: Option<real>): Reading {
    Reading(0.0, 0.0, 0, age, false)
  }

  /** The retained periods, oldest first, and the time of the last edge. */
  datatype State = State(periods: seq<real>, lastEdge: Option<real>)

  const RESET := State([], None)

  /** deque(maxlen): the oldest period makes room. */
  function Appended(periods: seq<real>, period: real, limit: nat): seq<real> {
    var all := periods + [period];
    if |all| <= limit then all else all[|all| - limit..]
  }

  /** The state after one edge; None stands for the ValueError of a time that does not increase. */
  function Edge(c: Settings, s: State, t: real): Option<State> {
    match s.lastEdge
    case None => Some(s.(lastEdge := Some(t)))
    case Some(last) =>
      var period := t - last;
      if period <= 0.0 then None
      else if period > c.timeout then Some(State([], Some(t)))
      else if period >= c.minimum then Some(State(Appended(s.periods, period, c.averagingPeriods), Some(t)))
      else Some(s.(lastEdge := Some(t)))
  }

  function Sum(xs: seq<real>): real
    decreases |xs|
  {
    if xs == [] then 0.0 else Sum(xs[..|xs| - 1]) + xs[|xs| - 1]
  }

  function Mean(xs: seq<real>): real
    requires xs != []
  {
    Sum(xs) / (|xs| as real)
  }

  /** 1 / period; periods are positive. */
  function Frequency(period: real): real {
    if period == 0.0 then 0.0 else 1.0 / period
  }

  /** None stands for the ValueError of a time before the last edge. */
  function Read(c: Settings, s: State, now: real): Option<Reading> {
    match s.lastEdge
    case None => Some(Stopped(None))
    case Some(last) =>
      var age := now - last;
      if age < 0.0 then None
      else if age > c.timeout || s.periods == [] then Some(Stopped(Some(age)))
      else
        var frequency := Frequency(Mean(s.periods));
        Some(Reading(frequency, frequency * RPM_PER_HZ, |s.periods|, Some(age), true))
  }

  // ----- edge histories

  /** Edges that the estimator refuses leave it as it is. */
  function Run(c: Settings, s: State, edges: seq<real>): State
    decreases |edges|
  {
    if edges == [] then s
    else
      var before := Run(c, s, edges[..|edges| - 1]);
      var after := Edge(c, before, edges[|edges| - 1]);
      if after.Some? then after.value else before
  }

  ghost predicate InBounds(c: Settings, s: State) {
    && |s.periods| <= c.averagingPeriods
    && (forall i :: 0 <= i < |s.periods| ==> c.minimum <= s.periods[i] <= c.timeout)
    && (s.lastEdge.None? ==> s.periods == [])
  }

  lemma {:induction false} RunIsInBounds(c: Settings, edges: seq<real>)
    requires c.Valid()
    ensures InBounds(c, Run(c, RESET, edges))
    decreases |edges|
  {
    if edges != [] {
      RunIsInBounds(c, edges[..|edges| - 1]);
    }
  }

  lemma OneMore(x: real, n: nat)
    ensures x * ((n + 1) as real) == x * (n as real) + x
  {
    assert (n + 1) as real == n as real + 1.0;
  }

  lemma {:induction false} SumIsBetween(xs: seq<real>, low: real, high: real)
    requires forall i :: 0 <= i < |xs| ==> low <= xs[i] <= high
    ensures low * (|xs| as real) <= Sum(xs) <= high * (|xs| as real)
    decreases |xs|
  {
    if xs != [] {
      var front := xs[..|xs| - 1];
      SumIsBetween(front, low, high);
      OneMore(low, |front|);
      OneMore(high, |front|);
    }
  }

  lemma QuotientIsBetween(total: real, n: real, low: real, high: real)
    requires n > 0.0 && low * n <= total <= high * n
    ensures low <= total / n <= high
  {
    assert total - low * n == (total / n - low) * n;
    assert high * n - total == (high - total / n) * n;
  }

  lemma MeanIsBetween(xs: seq<real>, low: real, high: real)
    requires xs != [] && forall i :: 0 <= i < |xs| ==> low <= xs[i] <= high
    ensures low <= Mean(xs) <= high
  {
    SumIsBetween(xs, low, high);
    hide Sum;
    QuotientIsBetween(Sum(xs), |xs| as real, low, high);
  }

  lemma FrequencyIsAntitone(a: real, b: real)
    requires 0.0 < a <= b
    ensures Frequency(b) <= Frequency(a)
  {
    assert 1.0 / a - 1.0 / b == (b - a) / (a * b);
  }

  /** For every edge history: at most averaging_periods periods are kept, all between the
      minimum and the time-out, and a valid speed lies between 20 / timeout and
      20 / minimum. */
  lemma ReadingIsInRange(c: Settings, edges: seq<real>, now: real)
    requires c.Valid()
    ensures var s := Run(c, RESET, edges);
            var r := Read(c, s, now);
            && InBounds(c, s)
            && (r.None? <==> s.lastEdge.Some? && now < s.lastEdge.value)
            && (r.Some? && r.value.valid ==>
                  && 1 <= r.value.sampleCount <= c.averagingPeriods
                  && 20.0 * Frequency(c.timeout) <= r.value.rpm <= 20.0 * Frequency(c.minimum))
  {
    RunIsInBounds(c, edges);
    var s := Run(c, RESET, edges);
    if s.periods != [] {
      MeanIsBetween(s.periods, c.minimum, c.timeout);
      FrequencyIsAntitone(c.minimum, Mean(s.periods));
      FrequencyIsAntitone(Mean(s.periods), c.timeout);
    }
    hide Run, Mean, InBounds, Frequency;
    assert RPM_PER_HZ == 20.0;
  }

  /** When a speed is valid, and what an invalid one shows. */
  lemma ReadingMeaning(c: Settings, s: State, now: real)
    ensures var r := Read(c, s, now);
            && (s.lastEdge.None? ==> r == Some(Reading(0.0, 0.0, 0, None, false)))
            && (s.lastEdge.Some? ==>
                  var age := now - s.lastEdge.value;
                  && (r.None? <==> age < 0.0)
                  && (r.Some? ==>
                        && r.value.age == Some(age) && (r.value.valid <==> age <= c.timeout && s.periods != [])
                        && (!r.value.valid ==> r.value == Reading(0.0, 0.0, 0, Some(age), false))))
  {
    hide Mean, Frequency;
  }

  // ----- the speed from the edges themselves

  /** Edges whose distances all count as periods. */
  ghost predicate ProperGaps(c: Settings, edges: seq<real>) {
    forall i :: 0 <= i < |edges| - 1 ==> c.minimum <= edges[i + 1] - edges[i] <= c.timeout
  }

  function Least(a: nat, b: nat): nat {
    if a <= b then a else b
  }

  /** The element at position i from the end. */
  function FromEnd(xs: seq<real>, i: int): real
    requires 0 <= i < |xs|
  {
    xs[|xs| - 1 - i]
  }

  /** The distance at position i from the end. */
  function Distance(edges: seq<real>, i: int): real
    requires 0 <= i < |edges| - 1
  {
    FromEnd(edges, i) - FromEnd(edges, i + 1)
  }

  /** The last k periods are the last k distances. */
  ghost predicate LastGaps(periods: seq<real>, edges: seq<real>, k: nat) {
    && k <= |periods| && k < |edges|
    && forall i :: 0 <= i < k ==> FromEnd(periods, i) == Distance(edges, i)
  }

  /** Nothing measured before counts for an edge at this time. */
  ghost predicate StartsFresh(c: Settings, s: State, t: real) {
    s.lastEdge.None? || t - s.lastEdge.value > c.timeout
  }

  lemma RunOneMore(c: Settings, before: seq<real>, t: real)
    ensures var s := Run(c, RESET, before);
            var after := Edge(c, s, t);
            Run(c, RESET, before + [t]) == if after.Some? then after.value else s
  {
    assert (before + [t])[..|before|] == before;
  }

  /** One more proper distance. */
  lemma GapIsAppended(c: Settings, s: State, edges: seq<real>, t: real, k: nat)
    requires c.Valid() && InBounds(c, s) && edges != [] && s.lastEdge == Some(edges[|edges| - 1])
    requires c.minimum <= t - edges[|edges| - 1] <= c.timeout && LastGaps(s.periods, edges, k)
    ensures var after := Edge(c, s, t);
            var n := Least(k + 1, c.averagingPeriods);
            && after.Some? && after.value.lastEdge == Some(t)
            && LastGaps(after.value.periods, edges + [t], n)
            && (|s.periods| == k ==> |after.value.periods| == n)
  {
    var more := edges + [t];
    var after := Edge(c, s, t).value;
    var n := Least(k + 1, c.averagingPeriods);
    forall i | 0 <= i < n ensures FromEnd(after.periods, i) == Distance(more, i) {
      if i > 0 {
        assert FromEnd(s.periods, i - 1) == Distance(edges, i - 1);
        assert FromEnd(after.periods, i) == FromEnd(s.periods, i - 1);
        assert Distance(more, i) == Distance(edges, i - 1);
      }
    }
  }

  lemma FirstEdgeIsTaken(c: Settings, s: State, t: real)
    requires InBounds(c, s) && (s.lastEdge.Some? ==> s.lastEdge.value < t)
    ensures var after := Edge(c, s, t);
            && after.Some? && after.value.lastEdge == Some(t) && LastGaps(after.value.periods, [t], 0)
            && (StartsFresh(c, s, t) ==> after.value.periods == [])
  {
    hide Appended;
  }

  /** After a stretch of edges at proper distances the last periods are these distances, and
      there are no others when the stretch started fresh. */
  lemma {:induction false} StretchIsKept(c: Settings, before: seq<real>, edges: seq<real>)
    requires c.Valid() && edges != [] && ProperGaps(c, edges)
    requires var s := Run(c, RESET, before); s.lastEdge.Some? ==> s.lastEdge.value < edges[0]
    ensures var s := Run(c, RESET, before + edges);
            var k := Least(|edges| - 1, c.averagingPeriods);
            && s.lastEdge == Some(edges[|edges| - 1]) && LastGaps(s.periods, edges, k)
            && (StartsFresh(c, Run(c, RESET, before), edges[0]) ==> |s.periods| == k)
    decreases |edges|
  {
    hide Run, LastGaps, InBounds, Edge, StartsFresh;
    var front, t := edges[..|edges| - 1], edges[|edges| - 1];
    assert edges == front + [t] && before + edges == (before + front) + [t];
    RunOneMore(c, before + front, t);
    RunIsInBounds(c, before + front);
    if front == [] {
      assert before + front == before && edges == [t];
      FirstEdgeIsTaken(c, Run(c, RESET, before), t);
    } else {
      assert front[0] == edges[0] && front[|front| - 1] == edges[|edges| - 2];
      assert c.minimum <= edges[|edges| - 2 + 1] - edges[|edges| - 2] <= c.timeout;
      assert ProperGaps(c, front);
      StretchIsKept(c, before, front);
      GapIsAppended(c, Run(c, RESET, before + front), front, t, Least(|front| - 1, c.averagingPeriods));
    }
  }

  /** The last k periods add up to the time between two edges. */
  lemma {:induction false} GapsAddUp(periods: seq<real>, edges: seq<real>)
    requires LastGaps(periods, edges, |periods|)
    ensures Sum(periods) == edges[|edges| - 1] - edges[|edges| - 1 - |periods|]
    decreases |periods|
  {
    if periods != [] {
      var front, earlier := periods[..|periods| - 1], edges[..|edges| - 1];
      assert FromEnd(periods, 0) == Distance(edges, 0);
      forall i | 0 <= i < |front| ensures FromEnd(front, i) == Distance(earlier, i) {
        assert FromEnd(periods, i + 1) == Distance(edges, i + 1);
      }
      GapsAddUp(front, earlier);
    }
  }

  /** Periods per second. */
  function Rate(periods: nat, span: real): real
    requires span > 0.0
  {
    (periods as real) / span
  }

  /** A valid reading at this frequency: three pulses make a revolution. */
  function Speed(frequency: real, periods: nat, age: real): Reading {
    Reading(frequency, 20.0 * frequency, periods, Some(age), true)
  }

  /** The speed after a stretch of edges at any proper distances: the number of periods that
      count over the time from the first of their edges to the last, as revolutions per
      minute.  All distances count up to the limit, when nothing before the stretch does or
      it is long enough. */
  lemma SpeedFromEdges(c: Settings, before: seq<real>, edges: seq<real>, now: real)
    requires c.Valid() && |edges| >= 2 && ProperGaps(c, edges)
    requires var s := Run(c, RESET, before); s.lastEdge.Some? ==> s.lastEdge.value < edges[0]
    requires StartsFresh(c, Run(c, RESET, before), edges[0]) || |edges| - 1 >= c.averagingPeriods
    requires 0.0 <= now - edges[|edges| - 1] <= c.timeout
    ensures var n := Least(|edges| - 1, c.averagingPeriods);
            var span := edges[|edges| - 1] - edges[|edges| - 1 - n];
            && span > 0.0
            && Read(c, Run(c, RESET, before + edges), now) ==
               Some(Speed(Rate(n, span), n, now - edges[|edges| - 1]))
  {
    StretchIsKept(c, before, edges);
    RunIsInBounds(c, before + edges);
    var s := Run(c, RESET, before + edges);
    hide Run, StartsFresh, ProperGaps;
    PeriodsGiveSpeed(c, s, edges, now);
  }

  lemma PeriodsGiveSpeed(c: Settings, s: State, edges: seq<real>, now: real)
    requires c.Valid() && InBounds(c, s) && s.periods != [] && LastGaps(s.periods, edges, |s.periods|)
    requires s.lastEdge == Some(edges[|edges| - 1]) && 0.0 <= now - edges[|edges| - 1] <= c.timeout
    ensures var n := |s.periods|;
            var span := edges[|edges| - 1] - edges[|edges| - 1 - n];
            && span > 0.0
            && Read(c, s, now) ==
               Some(Speed(Rate(n, span), n, now - edges[|edges| - 1]))
  {
    GapsAddUp(s.periods, edges);
    SumIsBetween(s.periods, c.minimum, c.timeout);
    var n := |s.periods| as real;
    InverseOfMean(Sum(s.periods), n, c.minimum);
    hide Sum, LastGaps;
    assert RPM_PER_HZ == 20.0;
  }

  lemma InverseOfMean(total: real, n: real, low: real)
    requires n > 0.0 && low > 0.0 && total >= low * n
    ensures total > 0.0 && total / n > 0.0 && 1.0 / (total / n) == n / total
  {
    assert low * n > 0.0;
    assert (total / n) * n == total;
    assert (n / total) * total == n;
    assert (total / n) * (n / total) == 1.0;
  }

  // ----- equally spaced edges

  function SpacedEdge(start: real, period: real, i: nat): real {
    start + period * (i as real)
  }

  /** n edges from start on, one period apart. */
  function Spaced(start: real, period: real, n: nat): (edges: seq<real>)
    ensures |edges| == n && forall i :: 0 <= i < n ==> edges[i] == SpacedEdge(start, period, i)
  {
    seq(n, i requires 0 <= i < n => SpacedEdge(start, period, i))
  }

  lemma NextEdge(start: real, period: real, i: nat)
    ensures SpacedEdge(start, period, i + 1) - SpacedEdge(start, period, i) == period
    ensures SpacedEdge(start, period, 0) == start
  {
    OneMore(period, i);
  }

  lemma SpacedIsProper(c: Settings, start: real, period: real, n: nat)
    requires c.minimum <= period <= c.timeout && n >= 1
    ensures ProperGaps(c, Spaced(start, period, n)) && Spaced(start, period, n)[0] == start
  {
    hide SpacedEdge, Spaced;
    NextEdge(start, period, 0);
    forall i: nat ensures SpacedEdge(start, period, i + 1) - SpacedEdge(start, period, i) == period {
      NextEdge(start, period, i);
    }
  }

  lemma SpanOfSpaced(start: real, period: real, n: nat)
    ensures SpacedEdge(start, period, n) - SpacedEdge(start, period, 0) == period * (n as real)
  {
  }

  /** After averaging_periods + 1 equally spaced edges the speed is exactly 20 / period,
      whatever came before. */
  lemma SteadySpeedIsExact(c: Settings, before: seq<real>, start: real, period: real)
    requires c.Valid() && c.minimum <= period <= c.timeout
    requires var s := Run(c, RESET, before); s.lastEdge.Some? ==> s.lastEdge.value < start
    ensures var s := Run(c, RESET, before + Spaced(start, period, c.averagingPeriods + 1));
            && s.lastEdge.Some?
            && Read(c, s, s.lastEdge.value) ==
               Some(Speed(1.0 / period, c.averagingPeriods, 0.0))
  {
    assert period > 0.0 && c.averagingPeriods >= 1;
    hide *;
    var n := c.averagingPeriods;
    var edges := Spaced(start, period, n + 1);
    SpacedIsProper(c, start, period, n + 1);
    SteadyQuotient(start, period, n, edges[n] - edges[0]);
    FullStretch(c, before, edges);
  }

  /** As many distances as the average takes. */
  lemma FullStretch(c: Settings, before: seq<real>, edges: seq<real>)
    requires c.Valid() && |edges| == c.averagingPeriods + 1 && ProperGaps(c, edges)
    requires var s := Run(c, RESET, before); s.lastEdge.Some? ==> s.lastEdge.value < edges[0]
    ensures var s := Run(c, RESET, before + edges);
            var span := edges[c.averagingPeriods] - edges[0];
            && s.lastEdge == Some(edges[c.averagingPeriods]) && span > 0.0
            && Read(c, s, s.lastEdge.value) == Some(Speed(Rate(c.averagingPeriods, span), c.averagingPeriods, 0.0))
  {
    StretchIsKept(c, before, edges);
    SpeedFromEdges(c, before, edges, edges[c.averagingPeriods]);
    hide Run, Read, StartsFresh, LastGaps, ProperGaps, Rate, Speed;
  }

  lemma SteadyQuotient(start: real, period: real, n: nat, span: real)
    requires n >= 1 && period > 0.0
    requires span == SpacedEdge(start, period, n) - SpacedEdge(start, period, 0)
    ensures span > 0.0 && Rate(n, span) == 1.0 / period
  {
    SpanOfSpaced(start, period, n);
    QuotientOfProduct(n as real, period);
  }

  lemma QuotientOfProduct(n: real, period: real)
    requires n > 0.0 && period > 0.0
    ensures n / (period * n) == 1.0 / period
  {
    assert period * n > 0.0;
    assert (1.0 / period) * (period * n) == n;
  }

  // ----- the object

  class TachoEstimator {
    const settings: Settings
    var periods: seq<real>
    var lastEdge: Option<real>

    ghost function View(): State
      reads this
    {
      State(periods, lastEdge)
    }

    /** Default values of the program: 6 periods, 0.25 s and 1 ms. */
    constructor (settings: Settings)
      requires settings.Valid()
      ensures this.settings == settings && View() == RESET
    {
      this.settings, periods, lastEdge := settings, [], None;
    }

    method ReadAt(now: real) returns (r: Option<Reading>)
      requires settings.Valid() && InBounds(settings, View())
      ensures r == Read(settings, View(), now)
    {
      match lastEdge {
        case None => r := Some(Stopped(None));
        case Some(last) =>
          var age := now - last;
          if age < 0.0 {
            return None;
          }
          if age > settings.timeout || periods == [] {
            return Some(Stopped(Some(age)));
          }
          AverageIsPositive(settings, View());
          var total := Total();
          var average := total / (|periods| as real);
          var frequency := 1.0 / average;
          r := Some(Reading(frequency, frequency * RPM_PER_HZ, |periods|, Some(age), true));
      }
    }

    /** sum(self._periods). */
    method Total() returns (total: real)
      ensures total == Sum(periods)
    {
      total := 0.0;
      var i := 0;
      while i < |periods|
        invariant 0 <= i <= |periods|
        invariant total == Sum(periods[..i])
      {
        assert periods[..i + 1][..i] == periods[..i];
        total := total + periods[i];
        i := i + 1;
      }
      assert periods[..i] == periods;
    }

    method AddEdge(t: real) returns (r: Option<Reading>)
      requires settings.Valid() && InBounds(settings, View())
      modifies this
      ensures InBounds(settings, View())
      ensures var after := Edge(settings, old(View()), t);
              && View() == (if after.Some? then after.value else old(View()))
              && r == (if after.None? then None else Read(settings, after.value, t))
    {
      match lastEdge {
        case None =>
        case Some(last) =>
          var period := t - last;
          if period <= 0.0 {
            return None;
          }
          if period > settings.timeout {
            periods := [];
            lastEdge := Some(t);
            return Some(Stopped(Some(0.0)));
          }
          if period >= settings.minimum {
            periods := Appended(periods, period, settings.averagingPeriods);
          }
      }
      lastEdge := Some(t);
      r := ReadAt(t);
    }

    method Reset()
      modifies this
      ensures View() == RESET
    {
      periods := [];
      lastEdge := None;
    }
  }

  lemma AverageIsPositive(c: Settings, s: State)
    requires c.Valid() && InBounds(c, s) && s.periods != []
    ensures Mean(s.periods) > 0.0
  {
    MeanIsBetween(s.periods, c.minimum, c.timeout);
  }
}
