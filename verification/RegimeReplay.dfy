/** What follows from the regime facts: marks and stage counts say the same thing, the replay cannot
    contradict the facts, and earlier prefixes agree with the full curve. */
module RegimeReplay {
  import opened Drawdown
  import opened RegimeFacts
  import opened StepCurves
  import opened Wrappers

  // ----- Marks and counts

  /** For ready facts: each stage has a record exactly when the mark rises between its boundaries. */
  lemma StageCountsAreRises(points: seq<Point>, end: int)
    requires points != [] && Sound(points) && points[0].time <= end - 28 * DAY
    ensures var f := ReadyFacts(points, end);
      && f.hwm28.Some? && f.hwm14.Some? && f.hwm7.Some? && f.hwm0.Some?
      && (f.stages.from28.count > 0 <==> f.hwm14.value.value > f.hwm28.value.value)
      && (f.stages.from14.count > 0 <==> f.hwm7.value.value > f.hwm14.value.value)
      && (f.stages.from7.count > 0 <==> f.hwm0.value.value > f.hwm7.value.value)
  {
    var times, values, n := Times(points), Values(points), |points|;
    assert times[0] == points[0].time;
    StageRises(times, values, end - 28 * DAY, end - 14 * DAY, n);
    StageRises(times, values, end - 14 * DAY, end - 7 * DAY, n);
    StageRises(times, values, end - 7 * DAY, end, n);
    hide Hits, Hwm, Records, DeepestInView, Severe, PositiveOn, NonDecreasing;
  }

  /** A held breakout needs no look at the stage counter: it is a close above the T-7 mark. */
  lemma HeldIsCloseAboveMark(points: seq<Point>, end: int)
    requires points != [] && Sound(points) && EndsBy(points, end) && points[0].time <= end - 28 * DAY
    ensures var f := ReadyFacts(points, end); f.hwm7.Some? && (f.held <==> f.close > f.hwm7.value.value)
  {
    var times, values, n := Times(points), Values(points), |points|;
    StageCountsAreRises(points, end);
    assert times[n - 1] <= end;
    HwmIsPeak(times, values, end, n);
    PeakIsMaximum(values, n - 1);
    hide Hits, Hwm, Records, DeepestInView, Severe, PositiveOn, NonDecreasing, Peak;
  }

  // ----- The replay of frozen facts

  /** The summary that is frozen: every field may be missing. */
  datatype Frozen = Frozen(ready: bool, reason: Option<Reason>, rawCount: Option<int>, stages: Option<(int, int, int)>,
                           hwm28: Option<Mark>, hwm14: Option<Mark>, hwm7: Option<Mark>, hwm0: Option<Mark>,
                           dd14: Option<real>, dd7: Option<real>, close: Option<real>, held: Option<bool>)

  datatype Objection = FactsNotReady | StageCountsUnavailable | DrawdownUnavailable | BoundaryUnavailable
    | FinalEquityUnavailable | RawCountUnavailable

  datatype Assessment = Assessment(objections: seq<Objection>, strictIncrease: bool, newAth: bool, held: bool)

  datatype Mismatch = HeldBreakoutMismatch

  function Freeze(f: Facts): Frozen {
    match f
    case NotEvaluated(reason, count) =>
      Frozen(false, Some(reason), Some(count), None, None, None, None, None, None, None, None, None)
    case Ready(count, hwm28, hwm14, hwm7, hwm0, stages, dd14, dd7, _, held, close, _, _) =>
      Frozen(true, None, Some(count), Some((stages.from28.count, stages.from14.count, stages.from7.count)),
             hwm28, hwm14, hwm7, hwm0, dd14, dd7, Some(close), Some(held))
  }

  function Rises(a: Option<Mark>, b: Option<Mark>): bool {
    a.Some? && b.Some? && b.value.value > a.value.value
  }

  function When(missing: bool, objection: Objection): seq<Objection> {
    if missing then [objection] else []
  }

  function ObjectionsTo(row: Frozen): seq<Objection> {
    var marksMissing := row.hwm28 == None || row.hwm14 == None || row.hwm7 == None || row.hwm0 == None;
    When(!row.ready || row.reason.Some?, FactsNotReady) + When(row.stages == None, StageCountsUnavailable)
    + When(row.dd14 == None || row.dd7 == None, DrawdownUnavailable) + When(marksMissing, BoundaryUnavailable)
    + When(row.close == None, FinalEquityUnavailable) + When(row.rawCount == None, RawCountUnavailable)
  }

  /** `assess_frozen_row` up to the call of the production assessor, window metrics left out. */
  function Replay(row: Frozen): Result<Assessment, Mismatch> {
    var stages := if row.stages.Some? then row.stages.value else (0, 0, 0);
    var newAth := stages.2 > 0;
    var held := newAth && row.close.Some? && Above(row.close.value, row.hwm7);
    if row.held.Some? && row.held.value != held then Err(HeldBreakoutMismatch)
    else
      Ok(Assessment(ObjectionsTo(row),
        Rises(row.hwm28, row.hwm14) && Rises(row.hwm14, row.hwm7) && Rises(row.hwm7, row.hwm0), newAth, held))
  }

  ghost predicate Higher(a: Option<Mark>, b: Option<Mark>) {
    match (a, b)
    case (Some(low), Some(high)) => low.value < high.value
    case _ => false
  }

  /** The last stage holds a record, and the close is known and above the T-7 mark. */
  ghost predicate ShowsBreakout(row: Frozen) {
    && row.stages.Some? && row.stages.value.2 > 0
    && row.close.Some? && row.hwm7.Some? && row.close.value > row.hwm7.value.value
  }

  /** What the replay of any frozen row gives: an error exactly when the frozen breakout flag contradicts the row,
      otherwise one objection for each missing fact, and the three findings. */
  lemma ReplayMeans(row: Frozen)
    ensures Replay(row).Err? <==> row.held.Some? && row.held.value != ShowsBreakout(row)
    ensures (Replay(row).Ok? ==> var a := Replay(row).value;
        && (a.held <==> ShowsBreakout(row)) && (a.newAth <==> row.stages.Some? && row.stages.value.2 > 0)
        && (a.strictIncrease <==>
              Higher(row.hwm28, row.hwm14) && Higher(row.hwm14, row.hwm7) && Higher(row.hwm7, row.hwm0))
        && forall o :: o in a.objections <==> Lacks(row, o))
  {
    ObjectionsMean(row);
    hide ObjectionsTo, Lacks;
  }

  /** What each objection is about. */
  ghost predicate Lacks(row: Frozen, o: Objection) {
    match o
    case FactsNotReady => !row.ready || row.reason.Some?
    case StageCountsUnavailable => row.stages == None
    case DrawdownUnavailable => row.dd14 == None || row.dd7 == None
    case BoundaryUnavailable => None in {row.hwm28, row.hwm14, row.hwm7, row.hwm0}
    case FinalEquityUnavailable => row.close == None
    case RawCountUnavailable => row.rawCount == None
  }

  lemma ObjectionsMean(row: Frozen)
    ensures forall o :: o in ObjectionsTo(row) <==> Lacks(row, o)
  {
    forall missing, objection, o ensures o in When(missing, objection) <==> missing && o == objection {
    }
    hide When;
  }

  /** Replaying facts never raises; on ready facts it objects to nothing, re-derives the breakout from
      the T-7 mark alone, and finds a strict increase exactly when all three stages have a record. */
  lemma ReplayAgrees(points: seq<Point>, end: int, cached: bool, quality: Oracle)
    requires Sound(points) && EndsBy(points, end)
    ensures var f := FactsOf(points, end, cached, quality); var r := Replay(Freeze(f));
      && r.Ok?
      && (f.Ready? <==> r.value.objections == [])
      && (f.Ready? ==> r.value.held == f.held == (f.close > f.hwm7.value.value))
      && (r.value.strictIncrease <==>
          f.Ready? && f.stages.from28.count > 0 && f.stages.from14.count > 0 && f.stages.from7.count > 0)
  {
    var f := FactsOf(points, end, cached, quality);
    if f.Ready? {
      StageCountsAreRises(points, end);
      HeldIsCloseAboveMark(points, end);
      DrawdownsNest(points, end);
    }
  }

  // ----- Falls

  /** The 7-day fall is within the 14-day one, that within the largest, and severity shows in dd14. */
  lemma DrawdownsNest(points: seq<Point>, end: int)
    requires points != [] && Sound(points)
    ensures var f := ReadyFacts(points, end);
      && f.dd14.Some? && f.dd7.Some? && f.dd7.value <= f.dd14.value <= f.maxDd
      && (f.severe ==> f.dd14.value >= 23.0)
  {
    var times, values, n := Times(points), Values(points), |points|;
    WiderViewFallsDeeper(times, values, end - 7 * DAY, end - 14 * DAY);
    WiderViewFallsDeeper(times, values, end - 14 * DAY, times[0]);
    if Severe(times, values, end - 14 * DAY) {
      SevereShows(times, values, end - 14 * DAY);
    }
    hide DeepestInView, Fall, Records, InView, Hits, Hwm, PositiveOn, Severe;
  }

  lemma WiderViewFallsDeeper(times: seq<int>, values: seq<real>, left: int, wider: int)
    requires |times| == |values| > 0 && NonDecreasing(times) && PositiveOn(values, 0, |values|)
    requires wider <= left || wider <= times[0]
    ensures var n := |times|;
      var narrow, wide := DeepestInView(times, values, left, n), DeepestInView(times, values, wider, n);
      narrow.Some? && wide.Some? && narrow.value <= wide.value
  {
    var n := |times|;
    DeepestInViewIsDeepest(times, values, left, n);
    DeepestInViewIsDeepest(times, values, wider, n);
    assert InView(times, left, n - 1);
    forall k | 0 <= k < n && InView(times, left, k) ensures InView(times, wider, k) {
      assert times[0] <= times[k];
    }
    hide DeepestInView, Fall, InView;
  }

  lemma SevereShows(times: seq<int>, values: seq<real>, left: int)
    requires |times| == |values| && PositiveOn(values, 0, |values|) && Severe(times, values, left)
    ensures DeepestInView(times, values, left, |times|).Some?
    ensures DeepestInView(times, values, left, |times|).value >= 23.0
  {
    DeepestInViewIsDeepest(times, values, left, |times|);
  }

  // ----- Prefixes

  /** Two consecutive stages as one. */
  function Joined(s: Stage, t: Stage): Stage {
    Stage(s.count + t.count, if s.first.Some? then s.first else t.first, if t.last.Some? then t.last else s.last)
  }

  lemma StagesJoin(points: seq<Point>, a: int, b: int, c: int)
    requires Sound(points) && a <= b <= c
    ensures Joined(StageOf(points, a, b, |points|), StageOf(points, b, c, |points|)) == StageOf(points, a, c, |points|)
  {
    HitsJoin(Times(points), Values(points), a, b, c, |points|);
    var early, late :=
      Hits(Times(points), Values(points), a, b, |points|), Hits(Times(points), Values(points), b, c, |points|);
    assert early != [] ==> (early + late)[0] == early[0] && early[0] in early && early[|early| - 1] in early;
    assert late != [] ==>
      (early + late)[|early| + |late| - 1] == late[|late| - 1] && late[0] in late && late[|late| - 1] in late;
    hide Hits;
  }

  /** A stage or mark that ends by the cutoff is the same in the prefix and in the full curve. */
  lemma PrefixAgrees(points: seq<Point>, cutoff: int, a: int, b: int)
    requires Sound(points) && b <= cutoff
    ensures var prefix := Prefix(points, cutoff);
      && MarkAt(prefix, b) == MarkAt(points, b)
      && StageOf(prefix, a, b, |prefix|) == StageOf(points, a, b, |points|)
  {
    PrefixIs(points, cutoff);
    var prefix := Prefix(points, cutoff);
    var m := |prefix|;
    var times, values := Times(points), Values(points);
    assert forall k :: m <= k < |points| ==> times[k] > b;
    LaterIsIgnored(times, values, a, b, m, |points|);
    TakeIsEnough(times, values, a, b, m, m);
    var hits := Hits(times, values, a, b, m);
    assert hits != [] ==> hits[0] in hits && hits[|hits| - 1] in hits;
    assert forall k :: k in hits ==> EventAt(prefix, k) == EventAt(points, k);
  }

  /** A ready prefix agrees with the full curve on every mark and stage they share. */
  lemma PrefixesAgree(points: seq<Point>, end: int, cached: bool, quality: Oracle)
    requires Sound(points) && FactsOf(points, end, cached, quality).Ready?
    requires Sound(Prefix(points, end - 14 * DAY)) && Sound(Prefix(points, end - 7 * DAY))
    ensures var f := FactsOf(points, end, cached, quality);
      var at7 := FactsOf(Prefix(points, end - 7 * DAY), end - 7 * DAY, false, quality);
      at7.Ready? ==>
        at7.hwm0 == f.hwm7 && at7.hwm7 == f.hwm14 && at7.stages.from7 == f.stages.from14
    ensures var f := FactsOf(points, end, cached, quality);
      var at14 := FactsOf(Prefix(points, end - 14 * DAY), end - 14 * DAY, false, quality);
      at14.Ready? ==>
        && at14.hwm0 == f.hwm14 && at14.hwm14 == f.hwm28
        && Joined(at14.stages.from14, at14.stages.from7) == f.stages.from28
        && at14.stages.from14.count + at14.stages.from7.count == f.stages.from28.count
  {
    var day7, day14, day28 := end - 7 * DAY, end - 14 * DAY, end - 28 * DAY;
    PrefixAgrees(points, day7, day14, day7);
    PrefixAgrees(points, day7, day14, day14);
    PrefixAgrees(points, day14, day14 - 7 * DAY, day14);
    PrefixAgrees(points, day14, day28, day14 - 7 * DAY);
    PrefixAgrees(points, day14, day28, day28);
    StagesJoin(points, day28, day14 - 7 * DAY, day14);
    var prefix7, prefix14 := Prefix(points, day7), Prefix(points, day14);
    ReadyParts(points, end, cached, quality);
    if FactsOf(prefix7, day7, false, quality).Ready? {
      ReadyParts(prefix7, day7, false, quality);
    }
    if FactsOf(prefix14, day14, false, quality).Ready? {
      ReadyParts(prefix14, day14, false, quality);
    }
    hide Hits, Hwm, Records, DeepestInView, Severe, PositiveOn, NonDecreasing, StageOf, MarkAt, Prefix, Sound;
    hide FactsOf, ReadyFacts;
  }

  lemma ReadyParts(points: seq<Point>, end: int, cached: bool, quality: Oracle)
    requires Sound(points) && FactsOf(points, end, cached, quality).Ready?
    ensures var f := FactsOf(points, end, cached, quality);
      && f.hwm28 == MarkAt(points, end - 28 * DAY) && f.hwm14 == MarkAt(points, end - 14 * DAY)
      && f.hwm7 == MarkAt(points, end - 7 * DAY) && f.hwm0 == MarkAt(points, end)
        && f.stages == StagesOf(points, end, |points|)
  {
    hide Hits, Hwm, Records, DeepestInView, Severe, PositiveOn, NonDecreasing, StageOf, MarkAt;
  }

  /** No look-ahead: whatever follows the cutoff, the prefix and so its facts stay as they are. */
  lemma PrefixNeverLooksAhead(points: seq<Point>, later: seq<Point>, cutoff: int)
    requires Sound(points) && Sound(points + later) && forall k :: 0 <= k < |later| ==> later[k].time > cutoff
    ensures Prefix(points + later, cutoff) == Prefix(points, cutoff)
  {
    var whole := points + later;
    PrefixIs(points, cutoff);
    var m := |Prefix(points, cutoff)|;
    assert forall k :: 0 <= k < m ==> Times(whole)[k] == Prefix(points, cutoff)[k].time;
    forall k | m <= k < |whole| ensures Times(whole)[k] > cutoff {
      assert whole[k].time > cutoff;
    }
    BeforeIs(Times(whole), cutoff + 1, m);
  }
}
