/** The weekly schedule of src/ventilation_core/domain/schedule.py.

    A window is described twice in that file: minute by minute (matches) and as
    one or two half-open segments of the week (week_segments).  validate_windows
    uses the second description with a sort-and-sweep that stops early.  The main
    result is that this fast check accepts a list of windows exactly when no
    minute of the week is matched by two windows of one zone.
 */
module Schedule {
  import opened Common

  const MINUTES_PER_DAY := 1440
  const MINUTES_PER_WEEK := 7 * MINUTES_PER_DAY

  datatype Expectation = Unknown | OccupiedExpected | UnoccupiedExpected

  datatype RawWindow = RawWindow(
    zone: string, weekday: int, startMinute: int, endMinute: int,
    expectation: Expectation, enabled: bool, caption: string, windowId: Option<int>)
  {
    /** The constructor checks; surrounding white space of the zone is not modelled. */
    predicate Valid() {
      && 1 <= |zone| <= 64
      && 1 <= weekday <= 7
      && 0 <= startMinute < MINUTES_PER_DAY
      && 0 <= endMinute < MINUTES_PER_DAY
      && startMinute != endMinute
      && !expectation.Unknown?
      && |caption| <= 80
      && (windowId.Some? ==> 1 <= windowId.value)
    }
  }

  type Window = w: RawWindow | w.Valid()
    witness RawWindow("z", 1, 0, 1, OccupiedExpected, true, "", None)

  predicate IsMinute(weekday: int, minute: int) {
    1 <= weekday <= 7 && 0 <= minute < MINUTES_PER_DAY
  }

  /** Minute-by-minute meaning, with wrap past midnight and past Sunday. */
  predicate Matches(w: Window, weekday: int, minute: int) {
    if !w.enabled then false
    else if w.endMinute > w.startMinute then
      weekday == w.weekday && w.startMinute <= minute < w.endMinute
    else
      var nextWeekday := if w.weekday == 7 then 1 else w.weekday + 1;
      (weekday == w.weekday && minute >= w.startMinute) ||
      (weekday == nextWeekday && minute < w.endMinute)
  }

  /** A half-open stretch [start, end) of the week, in minutes from Monday 00:00. */
  datatype Segment = Segment(start: int, end: int)

  function WeekSegments(w: Window): seq<Segment> {
    if !w.enabled then []
    else
      var start := (w.weekday - 1) * MINUTES_PER_DAY + w.startMinute;
      var sameDay := (w.weekday - 1) * MINUTES_PER_DAY + w.endMinute;
      var end := if w.endMinute <= w.startMinute then sameDay + MINUTES_PER_DAY else sameDay;
      if end <= MINUTES_PER_WEEK then [Segment(start, end)]
      else [Segment(start, MINUTES_PER_WEEK), Segment(0, end - MINUTES_PER_WEEK)]
  }

  predicate Covers(s: Segment, t: int) {
    s.start <= t < s.end
  }

  /** The two descriptions of a window agree on every minute of the week. */
  lemma SegmentsCoverMatches(w: Window, weekday: int, minute: int)
    requires 1 <= weekday <= 7 && 0 <= minute < 24 * 60
    ensures Matches(w, weekday, minute) <==>
            exists s :: s in WeekSegments(w) && Covers(s, (weekday - 1) * 24 * 60 + minute)
  {
    var t := (weekday - 1) * MINUTES_PER_DAY + minute;
    if w.enabled {
      var segs := WeekSegments(w);
      assert segs[0] in segs;
      if |segs| == 1 {
        assert forall s :: s in segs ==> s == segs[0];
        assert Matches(w, weekday, minute) <==> Covers(segs[0], t);
      } else {
        assert segs[1] in segs;
        assert forall s :: s in segs ==> s == segs[0] || s == segs[1];
        assert Matches(w, weekday, minute) <==> Covers(segs[0], t) || Covers(segs[1], t);
      }
    }
  }

  /** Every segment lies inside the week and is not empty. */
  lemma SegmentsInsideWeek(w: Window)
    ensures forall s :: s in WeekSegments(w) ==> 0 <= s.start < s.end <= MINUTES_PER_WEEK
  {
  }

  // ----- the specification of a clash

  /** Windows i and j (two different entries of the list) share a zone and a minute. */
  predicate Clash(ws: seq<Window>, i: int, j: int, weekday: int, minute: int)
    requires 0 <= i < |ws| && 0 <= j < |ws|
  {
    && ws[i].zone == ws[j].zone
    && Matches(ws[i], weekday, minute)
    && Matches(ws[j], weekday, minute)
  }

  /** No minute of the week is matched by two different windows of one zone. */
  ghost predicate ClashFree(ws: seq<Window>) {
    forall i, j, d, m :: 0 <= i < j < |ws| && IsMinute(d, m) ==> !Clash(ws, i, j, d, m)
  }

  /** The windows of zone z that match one minute, in list order. */
  function Matching(ws: seq<Window>, z: string, d: int, m: int): seq<Window> {
    if ws == [] then []
    else
      var rest := Matching(ws[..|ws| - 1], z, d, m);
      var last := ws[|ws| - 1];
      if last.zone == z && Matches(last, d, m) then rest + [last] else rest
  }

  predicate Hit(ws: seq<Window>, i: int, z: string, d: int, m: int)
    requires 0 <= i < |ws|
  {
    ws[i].zone == z && Matches(ws[i], d, m)
  }

  lemma {:induction false} OneHit(ws: seq<Window>, z: string, d: int, m: int)
    ensures |Matching(ws, z, d, m)| >= 1 <==> exists i :: 0 <= i < |ws| && Hit(ws, i, z, d, m)
  {
    if ws != [] {
      var front := ws[..|ws| - 1];
      OneHit(front, z, d, m);
      assert forall i :: 0 <= i < |front| ==> Hit(front, i, z, d, m) == Hit(ws, i, z, d, m);
      assert Hit(ws, |ws| - 1, z, d, m) == (ws[|ws| - 1].zone == z && Matches(ws[|ws| - 1], d, m));
    }
  }

  lemma {:induction false} TwoHits(ws: seq<Window>, z: string, d: int, m: int)
    ensures |Matching(ws, z, d, m)| >= 2 <==>
            exists i, j :: 0 <= i < j < |ws| && Hit(ws, i, z, d, m) && Hit(ws, j, z, d, m)
  {
    if ws != [] {
      var front := ws[..|ws| - 1];
      OneHit(front, z, d, m);
      TwoHits(front, z, d, m);
      assert forall i :: 0 <= i < |front| ==> Hit(front, i, z, d, m) == Hit(ws, i, z, d, m);
      assert Hit(ws, |ws| - 1, z, d, m) == (ws[|ws| - 1].zone == z && Matches(ws[|ws| - 1], d, m));
    }
  }

  /** Clash freedom, counted: at most one window of any zone matches any minute. */
  lemma ClashFreeMeansAtMostOne(ws: seq<Window>)
    ensures ClashFree(ws) <==>
            forall z, d, m :: IsMinute(d, m) ==> |Matching(ws, z, d, m)| <= 1
  {
    if ClashFree(ws) {
      forall z, d, m | IsMinute(d, m)
        ensures |Matching(ws, z, d, m)| <= 1
      {
        TwoHits(ws, z, d, m);
        if i, j :| 0 <= i < j < |ws| && Hit(ws, i, z, d, m) && Hit(ws, j, z, d, m) {
          assert Clash(ws, i, j, d, m);
        }
      }
    } else {
      var i, j, d, m :| 0 <= i < j < |ws| && IsMinute(d, m) && Clash(ws, i, j, d, m);
      TwoHits(ws, ws[i].zone, d, m);
      assert Hit(ws, i, ws[i].zone, d, m) && Hit(ws, j, ws[i].zone, d, m);
    }
  }

  // ----- grouping by zone

  function ZoneWindows(ws: seq<Window>, z: string): (r: seq<Window>)
    ensures forall w :: w in r ==> w.zone == z
  {
    if ws == [] then []
    else
      var rest := ZoneWindows(ws[..|ws| - 1], z);
      if ws[|ws| - 1].zone == z then rest + [ws[|ws| - 1]] else rest
  }

  lemma {:induction false} GroupingKeepsMatching(ws: seq<Window>, z: string, d: int, m: int)
    ensures Matching(ZoneWindows(ws, z), z, d, m) == Matching(ws, z, d, m)
  {
    if ws != [] {
      GroupingKeepsMatching(ws[..|ws| - 1], z, d, m);
      var rest := ZoneWindows(ws[..|ws| - 1], z);
      assert (rest + [ws[|ws| - 1]])[..|rest|] == rest;
    }
  }

  /** The list of one zone clashes exactly when two of its windows share a minute. */
  ghost predicate ZoneClashes(ws: seq<Window>, z: string) {
    exists d, m :: IsMinute(d, m) && |Matching(ws, z, d, m)| >= 2
  }

  lemma ZoneWindowsClashAlike(ws: seq<Window>, z: string)
    ensures ZoneClashes(ZoneWindows(ws, z), z) <==> ZoneClashes(ws, z)
  {
    forall d, m ensures Matching(ZoneWindows(ws, z), z, d, m) == Matching(ws, z, d, m) {
      GroupingKeepsMatching(ws, z, d, m);
    }
  }

  // ----- the sweep over sorted segments

  /** A segment labelled with the position of its window in the zone's list. */
  datatype Tagged = Tagged(start: int, end: int, index: int)

  /** Tuple order, as used by list.sort(). */
  predicate AtMost(a: Tagged, b: Tagged) {
    a.start < b.start ||
    (a.start == b.start && (a.end < b.end || (a.end == b.end && a.index <= b.index)))
  }

  ghost predicate Sorted(segs: seq<Tagged>) {
    forall p, q :: 0 <= p < q < |segs| ==> AtMost(segs[p], segs[q])
  }

  function Insert(x: Tagged, segs: seq<Tagged>): (r: seq<Tagged>)
    ensures multiset(r) == multiset(segs) + multiset{x}
  {
    if segs == [] || AtMost(x, segs[0]) then [x] + segs
    else
      assert segs == [segs[0]] + segs[1..];
      [segs[0]] + Insert(x, segs[1..])
  }

  lemma {:induction false} InsertKeepsSorted(x: Tagged, segs: seq<Tagged>)
    requires Sorted(segs)
    ensures Sorted(Insert(x, segs))
  {
    if segs != [] && !AtMost(x, segs[0]) {
      var rest := Insert(x, segs[1..]);
      InsertKeepsSorted(x, segs[1..]);
      forall p | 0 <= p < |rest| ensures AtMost(segs[0], rest[p]) {
        assert rest[p] in multiset(rest);
        assert rest[p] == x || rest[p] in segs[1..];
      }
    }
  }

  /** What list.sort() leaves: the same segments, in tuple order. */
  function SortSegments(segs: seq<Tagged>): (r: seq<Tagged>)
    ensures Sorted(r)
    ensures multiset(r) == multiset(segs)
  {
    if segs == [] then []
    else
      assert segs == [segs[0]] + segs[1..];
      InsertKeepsSorted(segs[0], SortSegments(segs[1..]));
      Insert(segs[0], SortSegments(segs[1..]))
  }

  predicate Overlap(a: Tagged, b: Tagged) {
    a.index != b.index && a.start < b.end && b.start < a.end
  }

  ghost predicate HasOverlap(segs: seq<Tagged>) {
    exists a, b :: a in segs && b in segs && Overlap(a, b)
  }

  lemma NoOrderedPairNoOverlap(segs: seq<Tagged>)
    requires forall i, j :: 0 <= i < j < |segs| ==> !Overlap(segs[i], segs[j])
    ensures !HasOverlap(segs)
  {
    forall a, b | a in segs && b in segs ensures !Overlap(a, b) {
      var i :| 0 <= i < |segs| && segs[i] == a;
      var j :| 0 <= j < |segs| && segs[j] == b;
      assert Overlap(a, b) == Overlap(b, a);
    }
  }

  /** The nested loops with early break: the break skips no overlap. */
  method Sweep(segs: seq<Tagged>) returns (found: bool)
    requires Sorted(segs)
    ensures found <==> HasOverlap(segs)
  {
    for p := 0 to |segs|
      invariant forall i, j :: 0 <= i < p && i < j < |segs| ==> !Overlap(segs[i], segs[j])
    {
      var a := segs[p];
      var q := p + 1;
      while q < |segs|
        invariant p < q <= |segs|
        invariant forall j :: p < j < q ==> !Overlap(a, segs[j])
      {
        var b := segs[q];
        if b.start >= a.end {
          break;
        }
        if a.index != b.index && a.start < b.end && b.start < a.end {
          assert Overlap(a, b) && a in segs && b in segs;
          return true;
        }
        q := q + 1;
      }
      assert forall j :: q <= j < |segs| ==> !Overlap(a, segs[j]);
    }
    NoOrderedPairNoOverlap(segs);
    found := false;
  }

  ghost predicate Labels(ws: seq<Window>, n: nat, segs: seq<Tagged>)
    requires n <= |ws|
  {
    forall t :: t in segs <==>
      0 <= t.index < n && Segment(t.start, t.end) in WeekSegments(ws[t.index])
  }

  /** A shared instant of two segments is a minute that both windows match. */
  lemma OverlapGivesSharedMinute(ws: seq<Window>, a: Tagged, b: Tagged) returns (d: int, m: int)
    requires 0 <= a.index < |ws| && Segment(a.start, a.end) in WeekSegments(ws[a.index])
    requires 0 <= b.index < |ws| && Segment(b.start, b.end) in WeekSegments(ws[b.index])
    requires Overlap(a, b)
    ensures IsMinute(d, m) && Matches(ws[a.index], d, m) && Matches(ws[b.index], d, m)
  {
    SegmentsInsideWeek(ws[a.index]);
    SegmentsInsideWeek(ws[b.index]);
    var t := Max(a.start, b.start);
    d, m := t / MINUTES_PER_DAY + 1, t % MINUTES_PER_DAY;
    SegmentsCoverMatches(ws[a.index], d, m);
    SegmentsCoverMatches(ws[b.index], d, m);
    assert Covers(Segment(a.start, a.end), t) && Covers(Segment(b.start, b.end), t);
  }

  lemma SharedMinuteGivesOverlap(ws: seq<Window>, i: int, j: int, d: int, m: int) returns (a: Tagged, b: Tagged)
    requires 0 <= i < j < |ws| && IsMinute(d, m) && Matches(ws[i], d, m) && Matches(ws[j], d, m)
    ensures a.index == i && Segment(a.start, a.end) in WeekSegments(ws[i])
    ensures b.index == j && Segment(b.start, b.end) in WeekSegments(ws[j])
    ensures Overlap(a, b)
  {
    SegmentsCoverMatches(ws[i], d, m);
    SegmentsCoverMatches(ws[j], d, m);
    var t := (d - 1) * MINUTES_PER_DAY + m;
    var s :| s in WeekSegments(ws[i]) && Covers(s, t);
    var u :| u in WeekSegments(ws[j]) && Covers(u, t);
    a, b := Tagged(s.start, s.end, i), Tagged(u.start, u.end, j);
  }

  /** Segments of different windows overlap exactly when some minute matches both. */
  lemma OverlapIsSharedMinute(ws: seq<Window>, z: string, segs: seq<Tagged>)
    requires forall w :: w in ws ==> w.zone == z
    requires Labels(ws, |ws|, segs)
    ensures HasOverlap(segs) <==> ZoneClashes(ws, z)
  {
    if a, b :| a in segs && b in segs && Overlap(a, b) {
      var d, m := OverlapGivesSharedMinute(ws, a, b);
      TwoHits(ws, z, d, m);
      assert Hit(ws, a.index, z, d, m) && Hit(ws, b.index, z, d, m);
    }
    if d, m :| IsMinute(d, m) && |Matching(ws, z, d, m)| >= 2 {
      TwoHits(ws, z, d, m);
      var i, j :| 0 <= i < j < |ws| && Hit(ws, i, z, d, m) && Hit(ws, j, z, d, m);
      var a, b := SharedMinuteGivesOverlap(ws, i, j, d, m);
    }
  }

  method LabelSegments(ws: seq<Window>) returns (segs: seq<Tagged>)
    ensures Labels(ws, |ws|, segs)
  {
    segs := [];
    for index := 0 to |ws|
      invariant Labels(ws, index, segs)
    {
      var own := WeekSegments(ws[index]);
      ghost var before := segs;
      for k := 0 to |own|
        invariant forall t :: t in segs <==>
          t in before || (t.index == index && Segment(t.start, t.end) in own[..k])
      {
        segs := segs + [Tagged(own[k].start, own[k].end, index)];
      }
      assert own[..|own|] == own;
    }
  }

  method CheckZone(ws: seq<Window>, ghost z: string) returns (clash: bool)
    requires forall w :: w in ws ==> w.zone == z
    ensures clash <==> ZoneClashes(ws, z)
  {
    var segs := LabelSegments(ws);
    var ordered := SortSegments(segs);
    assert forall t :: t in segs <==> t in ordered by {
      assert forall t :: t in segs <==> t in multiset(segs);
      assert forall t :: t in ordered <==> t in multiset(ordered);
    }
    clash := Sweep(ordered);
    OverlapIsSharedMinute(ws, z, ordered);
  }

  lemma ZoneWindowsStep(ws: seq<Window>, n: nat, z: string)
    requires n < |ws|
    ensures ZoneWindows(ws[..n + 1], z) ==
            if ws[n].zone == z then ZoneWindows(ws[..n], z) + [ws[n]] else ZoneWindows(ws[..n], z)
  {
    assert ws[..n + 1][..n] == ws[..n];
  }

  function GroupOf(byZone: map<string, seq<Window>>, z: string): seq<Window> {
    if z in byZone then byZone[z] else []
  }

  function AddToGroup(byZone: map<string, seq<Window>>, w: Window): map<string, seq<Window>> {
    byZone[w.zone := GroupOf(byZone, w.zone) + [w]]
  }

  /** The grouping holds each zone seen so far with exactly its windows. */
  ghost predicate Grouped(ws: seq<Window>, byZone: map<string, seq<Window>>) {
    forall z :: GroupOf(byZone, z) == ZoneWindows(ws, z)
  }

  /** Position of the first window of a zone, or the length when there is none. */
  function FirstOf(ws: seq<Window>, z: string): (k: nat)
    ensures k <= |ws| && (k < |ws| ==> ws[k].zone == z)
    ensures forall j :: 0 <= j < k ==> ws[j].zone != z
    decreases |ws|
  {
    if ws == [] || ws[0].zone == z then 0 else 1 + FirstOf(ws[1..], z)
  }

  /** The zones and the groups are those of the windows. */
  ghost predicate Listed(ws: seq<Window>, zones: seq<string>, byZone: map<string, seq<Window>>) {
    && (forall z :: z in zones <==> z in byZone)
    && (forall w :: w in ws ==> w.zone in byZone)
  }

  /** Each zone occurs in the windows and is listed once, in the order of first appearance. */
  ghost predicate InOrder(ws: seq<Window>, zones: seq<string>) {
    && (forall i :: 0 <= i < |zones| ==> FirstOf(ws, zones[i]) < |ws|)
    && (forall i, j :: 0 <= i < j < |zones| ==> FirstOf(ws, zones[i]) < FirstOf(ws, zones[j]))
  }

  lemma FirstOfPrefix(ws: seq<Window>, n: nat, z: string)
    requires n < |ws|
    ensures FirstOf(ws[..n + 1], z) ==
            if FirstOf(ws[..n], z) < n then FirstOf(ws[..n], z) else if ws[n].zone == z then n else n + 1
  {
    var k, j := FirstOf(ws[..n + 1], z), FirstOf(ws[..n], z);
    hide FirstOf;
    if j < n { assert ws[..n + 1][j] == ws[..n][j]; }
    if k < n { assert ws[..n][k] == ws[..n + 1][k]; }
    assert forall i :: 0 <= i < n ==> ws[..n][i] == ws[..n + 1][i];
  }

  lemma GroupingStep(ws: seq<Window>, n: nat, byZone: map<string, seq<Window>>)
    requires n < |ws| && Grouped(ws[..n], byZone)
    ensures Grouped(ws[..n + 1], AddToGroup(byZone, ws[n]))
  {
    hide ZoneWindows;
    forall z ensures GroupOf(AddToGroup(byZone, ws[n]), z) == ZoneWindows(ws[..n + 1], z) {
      ZoneWindowsStep(ws, n, z);
      assert GroupOf(byZone, z) == ZoneWindows(ws[..n], z);
    }
  }

  lemma ListingStep(ws: seq<Window>, n: nat, zones: seq<string>, byZone: map<string, seq<Window>>)
    requires n < |ws| && Listed(ws[..n], zones, byZone)
    ensures Listed(ws[..n + 1], if ws[n].zone in byZone then zones else zones + [ws[n].zone],
                   AddToGroup(byZone, ws[n]))
  {
    hide GroupOf;
    assert forall w :: w in ws[..n + 1] ==> w in ws[..n] || w == ws[n];
  }

  lemma OrderStep(ws: seq<Window>, n: nat, zones: seq<string>)
    requires n < |ws| && InOrder(ws[..n], zones)
    ensures InOrder(ws[..n + 1], zones)
    ensures FirstOf(ws[..n], ws[n].zone) == n ==> InOrder(ws[..n + 1], zones + [ws[n].zone])
  {
    forall i | 0 <= i < |zones| ensures FirstOf(ws[..n + 1], zones[i]) == FirstOf(ws[..n], zones[i]) {
      FirstOfPrefix(ws, n, zones[i]);
    }
    FirstOfPrefix(ws, n, ws[n].zone);
    hide FirstOf;
  }

  lemma NewZoneIsFirst(ws: seq<Window>, n: nat, zones: seq<string>, byZone: map<string, seq<Window>>)
    requires n < |ws| && Listed(ws[..n], zones, byZone) && ws[n].zone !in byZone
    ensures FirstOf(ws[..n], ws[n].zone) == n
  {
    hide FirstOf;
    forall k | 0 <= k < n ensures ws[..n][k].zone in byZone {
      assert ws[..n][k] in ws[..n];
    }
  }

  /** Groups windows into lists by zone, zones in order of first appearance. */
  method GroupByZone(ws: seq<Window>) returns (zones: seq<string>, byZone: map<string, seq<Window>>)
    ensures Grouped(ws, byZone)
    ensures Listed(ws, zones, byZone) && InOrder(ws, zones)
  {
    zones, byZone := [], map[];
    for n := 0 to |ws|
      invariant Grouped(ws[..n], byZone)
      invariant Listed(ws[..n], zones, byZone) && InOrder(ws[..n], zones)
    {
      hide Grouped, Listed, InOrder, FirstOf, AddToGroup;
      GroupingStep(ws, n, byZone);
      ListingStep(ws, n, zones, byZone);
      OrderStep(ws, n, zones);
      if ws[n].zone !in byZone {
        NewZoneIsFirst(ws, n, zones, byZone);
        zones := zones + [ws[n].zone];
      }
      byZone := AddToGroup(byZone, ws[n]);
    }
    assert ws[..|ws|] == ws;
  }

  /** A list is clash free when none of the zones that occur in it clashes. */
  lemma ZonesDecideClash(ws: seq<Window>, zones: seq<string>)
    requires forall w :: w in ws ==> w.zone in zones
    requires forall z :: z in zones ==> !ZoneClashes(ws, z)
    ensures ClashFree(ws)
  {
    forall i, j, d, m | 0 <= i < j < |ws| && IsMinute(d, m)
      ensures !Clash(ws, i, j, d, m)
    {
      var z := ws[i].zone;
      assert ws[i] in ws;
      if Clash(ws, i, j, d, m) {
        TwoHits(ws, z, d, m);
        assert Hit(ws, i, z, d, m) && Hit(ws, j, z, d, m);
      }
    }
  }

  lemma ClashingZoneIsClash(ws: seq<Window>, z: string)
    requires ZoneClashes(ws, z)
    ensures !ClashFree(ws)
  {
    ClashFreeMeansAtMostOne(ws);
    var d, m :| IsMinute(d, m) && |Matching(ws, z, d, m)| >= 2;
    assert |Matching(ws, z, d, m)| > 1;
  }

  /** Success when the list is accepted; otherwise the first zone found to clash. */
  method ValidateWindows(ws: seq<Window>) returns (r: Result<(), string>)
    ensures r.Success? <==> ClashFree(ws)
    ensures r.Failure? ==> ZoneClashes(ws, r.error)
  {
    hide InOrder, FirstOf;
    var zones, byZone := GroupByZone(ws);
    for k := 0 to |zones|
      invariant forall n :: 0 <= n < k ==> !ZoneClashes(ws, zones[n])
    {
      ZoneWindowsClashAlike(ws, zones[k]);
      assert zones[k] in zones && GroupOf(byZone, zones[k]) == ZoneWindows(ws, zones[k]);
      var clash := CheckZone(byZone[zones[k]], zones[k]);
      if clash {
        ClashingZoneIsClash(ws, zones[k]);
        return Failure(zones[k]);
      }
    }
    ZonesDecideClash(ws, zones);
    r := Success(());
  }

  // ----- evaluation

  datatype ZoneState = ZoneState(zone: string, expectation: Expectation, matchedWindowId: Option<int>)

  datatype EvaluationError = Overlapping(zone: string) | MultipleMatches(zone: string)

  /** What the schedule says about one zone at one minute. */
  ghost predicate StateOf(ws: seq<Window>, d: int, m: int, s: ZoneState) {
    if exists i :: 0 <= i < |ws| && Hit(ws, i, s.zone, d, m) then
      exists i :: 0 <= i < |ws| && Hit(ws, i, s.zone, d, m) &&
                  s.expectation == ws[i].expectation && s.matchedWindowId == ws[i].windowId
    else
      s.expectation == UnoccupiedExpected && s.matchedWindowId == None
  }

  method MatchingWindows(ws: seq<Window>, z: string, d: int, m: int) returns (r: seq<Window>)
    ensures r == Matching(ws, z, d, m)
  {
    r := [];
    for n := 0 to |ws|
      invariant r == Matching(ws[..n], z, d, m)
    {
      assert ws[..n + 1][..n] == ws[..n];
      if ws[n].zone == z && Matches(ws[n], d, m) {
        r := r + [ws[n]];
      }
    }
    assert ws[..|ws|] == ws;
  }

  lemma {:induction false} MatchingComesFromList(ws: seq<Window>, z: string, d: int, m: int)
    ensures forall w :: w in Matching(ws, z, d, m) ==>
              exists i :: 0 <= i < |ws| && Hit(ws, i, z, d, m) && ws[i] == w
  {
    if ws != [] {
      var front := ws[..|ws| - 1];
      MatchingComesFromList(front, z, d, m);
      assert forall i :: 0 <= i < |front| ==> Hit(front, i, z, d, m) == Hit(ws, i, z, d, m);
      assert Hit(ws, |ws| - 1, z, d, m) == (ws[|ws| - 1].zone == z && Matches(ws[|ws| - 1], d, m));
    }
  }

  method EvaluateZone(ws: seq<Window>, z: string, d: int, m: int) returns (r: Result<ZoneState, EvaluationError>)
    ensures r.Success? <==> |Matching(ws, z, d, m)| <= 1
    ensures r.Success? ==> r.value.zone == z && StateOf(ws, d, m, r.value)
    ensures r.Failure? ==> r.error == MultipleMatches(z)
  {
    var matching := MatchingWindows(ws, z, d, m);
    if |matching| > 1 {
      return Failure(MultipleMatches(z));
    }
    OneHit(ws, z, d, m);
    MatchingComesFromList(ws, z, d, m);
    if |matching| > 0 {
      assert matching[0] in matching;
      r := Success(ZoneState(z, matching[0].expectation, matching[0].windowId));
    } else {
      r := Success(ZoneState(z, UnoccupiedExpected, None));
    }
  }

  /** The evaluation succeeds exactly on clash-free lists: once validation has
      passed, the "multiple windows match" error can no longer be raised. */
  method EvaluateSchedule(ws: seq<Window>, zones: seq<string>, weekday: int, minute: int)
    returns (r: Result<seq<ZoneState>, EvaluationError>)
    requires IsMinute(weekday, minute)
    ensures r.Success? <==> ClashFree(ws)
    ensures r.Failure? ==> r.error.Overlapping?
    ensures r.Success? ==>
      && |r.value| == |zones|
      && forall k :: 0 <= k < |zones| ==>
           r.value[k].zone == zones[k] && StateOf(ws, weekday, minute, r.value[k])
  {
    var checked := ValidateWindows(ws);
    if checked.Failure? {
      return Failure(Overlapping(checked.error));
    }
    ClashFreeMeansAtMostOne(ws);
    var states: seq<ZoneState> := [];
    for k := 0 to |zones|
      invariant |states| == k
      invariant forall n :: 0 <= n < k ==>
        states[n].zone == zones[n] && StateOf(ws, weekday, minute, states[n])
    {
      var one := EvaluateZone(ws, zones[k], weekday, minute);
      match one {
        case Failure(error) => return Failure(error);
        case Success(state) => states := states + [state];
      }
    }
    r := Success(states);
  }
}
