/** The regime facts in terms of the points alone: marks, records, falls and severity by pairs of points. */
module RegimeMeaning {
  import opened Drawdown
  import opened RegimeFacts
  import opened RegimeScan
  import opened Sorting
  import opened StepCurves
  import opened Wrappers

  /** Positive values in the order of their times, as validation leaves them. */
  ghost predicate Ordered(points: seq<Point>) {
    && (forall k :: 0 <= k < |points| ==> points[k].value > 0.0)
    && (forall j, k :: 0 <= j <= k < |points| ==> points[j].time <= points[k].time)
  }

  lemma OrderedIsSound(points: seq<Point>)
    ensures Ordered(points) <==> Sound(points)
  {
    var times, values := Times(points), Values(points);
    if Sound(points) {
      forall k | 0 <= k < |points| ensures points[k].value > 0.0 {
        assert values[k] > 0.0;
      }
      forall j, k | 0 <= j <= k < |points| ensures points[j].time <= points[k].time {
        assert times[j] <= times[k];
      }
    }
  }

  // ----- Falls

  /** A value that is at most `b` percent below an earlier one. */
  ghost predicate Keeps(value: real, earlier: real, b: real) {
    100.0 * value >= (100.0 - b) * earlier
  }

  /** At most `b` percent of any earlier value is lost at `k`. */
  ghost predicate LosesAtMost(points: seq<Point>, k: nat, b: real)
    requires k < |points|
  {
    forall i :: 0 <= i <= k ==> Keeps(points[k].value, points[i].value, b)
  }

  lemma FallBelowAtMost(value: real, peak: real, b: real)
    requires peak > 0.0
    ensures FallBelow(value, peak) <= b <==> Keeps(value, peak, b)
  {
    var q := value / peak;
    assert q * peak == value;
    var room := 100.0 * q - (100.0 - b);
    assert room * peak == 100.0 * value - (100.0 - b) * peak;
    assert FallBelow(value, peak) <= b <==> room >= 0.0;
    SameSign(room, peak);
  }

  lemma SameSign(x: real, w: real)
    requires w > 0.0
    ensures x * w >= 0.0 <==> x >= 0.0
  {
  }

  lemma KeepsLower(value: real, low: real, high: real, b: real)
    requires b <= 100.0 && low <= high && Keeps(value, high, b)
    ensures Keeps(value, low, b)
  {
    assert (100.0 - b) * (high - low) >= 0.0;
  }

  /** The fall at a point is at most `b` percent exactly when no earlier value is undercut by more. */
  lemma FallAtMost(points: seq<Point>, k: nat, b: real)
    requires Ordered(points) && k < |points| && b <= 100.0
    ensures PositiveOn(Values(points), 0, |points|)
    ensures Fall(Values(points), k) <= b <==> LosesAtMost(points, k, b)
  {
    OrderedIsSound(points);
    var values := Values(points);
    PeakIsMaximum(values, k);
    PeakPositive(values, k);
    var peak := Peak(values, k);
    FallBelowAtMost(values[k], peak, b);
    var p :| 0 <= p <= k && values[p] == peak;
    assert points[p].value == peak && points[k].value == values[k];
    forall i | 0 <= i <= k ensures points[i].value <= peak {
      assert values[i] == points[i].value;
    }
    hide FallBelow, Peak, Keeps;
    if Keeps(values[k], peak, b) {
      forall i | 0 <= i <= k ensures Keeps(points[k].value, points[i].value, b) {
        KeepsLower(values[k], points[i].value, peak, b);
      }
    }
  }

  /** At or after `left`, or the last point before it. */
  ghost predicate Seen(points: seq<Point>, left: int, k: nat)
    requires k < |points|
  {
    points[k].time >= left || forall j :: k < j < |points| ==> points[j].time > left
  }

  lemma SeenIsInView(points: seq<Point>, left: int, k: nat)
    requires Ordered(points) && k < |points|
    ensures InView(Times(points), left, k) <==> Seen(points, left, k)
  {
    if k + 1 < |points| {
      assert Times(points)[k + 1] == points[k + 1].time;
    }
  }

  ghost predicate FallsWithin(points: seq<Point>, left: int, b: real) {
    forall k: nat :: k < |points| && Seen(points, left, k) ==> LosesAtMost(points, k, b)
  }

  /** The figure is the least bound that all losses at the points in view keep. */
  ghost predicate IsDeepest(points: seq<Point>, left: int, dd: Option<real>) {
    dd.Some? && forall b :: b <= 100.0 ==> (dd.value <= b <==> FallsWithin(points, left, b))
  }

  lemma DeepestMeans(points: seq<Point>, left: int)
    requires points != [] && Ordered(points)
    ensures Sound(points)
    ensures IsDeepest(points, left, DeepestInView(Times(points), Values(points), left, |points|))
  {
    OrderedIsSound(points);
    var times, values, n := Times(points), Values(points), |points|;
    DeepestInViewIsDeepest(times, values, left, n);
    var dd := DeepestInView(times, values, left, n);
    assert InView(times, left, n - 1);
    hide DeepestInView, Fall, LosesAtMost, Seen, InView, Ordered, Times, Values;
    forall b | b <= 100.0 ensures dd.value <= b <==> FallsWithin(points, left, b) {
      forall k: nat | k < n
        ensures InView(times, left, k) <==> Seen(points, left, k)
        ensures Fall(values, k) <= b <==> LosesAtMost(points, k, b)
      {
        SeenIsInView(points, left, k);
        FallAtMost(points, k, b);
      }
    }
  }

  // ----- Records

  /** Above every earlier value, and not the first. */
  ghost predicate Tops(points: seq<Point>, k: nat) {
    0 < k < |points| && forall j :: 0 <= j < k ==> points[j].value < points[k].value
  }

  lemma TopsIsRecord(points: seq<Point>, k: nat)
    requires k < |points|
    ensures Record(Values(points), k) <==> Tops(points, k)
  {
    var values := Values(points);
    if k > 0 {
      PeakIsMaximum(values, k - 1);
      var p :| 0 <= p <= k - 1 && values[p] == Peak(values, k - 1);
      assert values[p] == points[p].value && values[k] == points[k].value;
      forall j | 0 <= j < k ensures points[j].value <= Peak(values, k - 1) {
        assert values[j] == points[j].value;
      }
    }
  }

  /** The records whose times lie in (a, b]. */
  ghost function TopsIn(points: seq<Point>, a: int, b: int): set<nat> {
    set k: nat | k < |points| && Tops(points, k) && a < points[k].time <= b
  }

  ghost function AllTops(points: seq<Point>): set<nat> {
    set k: nat | k < |points| && Tops(points, k)
  }

  lemma {:induction false} HitsAre(times: seq<int>, values: seq<real>, a: int, b: int, n: nat)
    requires n <= |times| == |values|
    ensures forall k: nat :: k in Hits(times, values, a, b, n) <==> k < n && Record(values, k) && a < times[k] <= b
    ensures Sorting.Ascending(Hits(times, values, a, b, n))
  {
    if n > 0 {
      HitsAre(times, values, a, b, n - 1);
      AscendingSnoc(Hits(times, values, a, b, n - 1), n - 1);
      hide Record;
    }
  }

  lemma {:induction false} RecordsRise(values: seq<real>, n: nat)
    requires n <= |values|
    ensures Sorting.Ascending(Records(values, n))
  {
    if n > 0 {
      RecordsRise(values, n - 1);
      RecordsAreAll(values, n - 1);
      AscendingSnoc(Records(values, n - 1), n - 1);
      hide Record;
    }
  }

  /** The stage counts the records with times in (a, b] and shows the first and the last of them. */
  ghost predicate IsStage(points: seq<Point>, a: int, b: int, stage: Stage) {
    && stage.count == |TopsIn(points, a, b)|
    && (stage.count == 0 ==> stage.first == None && stage.last == None)
    && (stage.count > 0 ==> exists f, l :: SpansStage(points, a, b, stage, f, l))
  }

  ghost predicate SpansStage(points: seq<Point>, a: int, b: int, stage: Stage, f: nat, l: nat) {
    && f in TopsIn(points, a, b) && l in TopsIn(points, a, b)
    && (forall k :: k in TopsIn(points, a, b) ==> f <= k <= l)
    && stage.first == Some(Event(points[f].time, points[f].value, points[f].index))
    && stage.last == Some(Event(points[l].time, points[l].value, points[l].index))
  }

  lemma StageMeans(points: seq<Point>, a: int, b: int)
    ensures IsStage(points, a, b, StageOf(points, a, b, |points|))
  {
    var hits, n := Hits(Times(points), Values(points), a, b, |points|), |points|;
    HitsAre(Times(points), Values(points), a, b, n);
    forall k: nat ensures k in hits <==> k in TopsIn(points, a, b) {
      if k < n {
        TopsIsRecord(points, k);
      }
    }
    AscendingCounts(hits, TopsIn(points, a, b));
    hide Hits, TopsIn, Record;
    if hits != [] {
      var f, l := hits[0], hits[|hits| - 1];
      assert f in hits && l in hits;
      forall k | k in TopsIn(points, a, b) ensures f <= k <= l {
        var i :| 0 <= i < |hits| && hits[i] == k;
      }
      assert SpansStage(points, a, b, StageOf(points, a, b, n), f, l);
    }
  }

  lemma AllTopsAreRecords(points: seq<Point>)
    ensures |Records(Values(points), |points|)| == |AllTops(points)|
  {
    var values, n := Values(points), |points|;
    RecordsAreAll(values, n);
    RecordsRise(values, n);
    forall k: nat ensures k in Records(values, n) <==> k in AllTops(points) {
      if k < n {
        TopsIsRecord(points, k);
      }
    }
    AscendingCounts(Records(values, n), AllTops(points));
  }

  // ----- Severity

  /** At least 23 percent of some earlier value is lost at `k`. */
  ghost predicate LosesMuch(points: seq<Point>, k: nat)
    requires k < |points|
  {
    exists i :: 0 <= i <= k && 100.0 * points[k].value <= 77.0 * points[i].value
  }

  lemma FallBelowAtLeast(value: real, peak: real)
    requires peak > 0.0
    ensures FallBelow(value, peak) >= 23.0 <==> 100.0 * value <= 77.0 * peak
  {
    var q := value / peak;
    assert q * peak == value;
    var room := 77.0 - 100.0 * q;
    assert room * peak == 77.0 * peak - 100.0 * value;
    assert FallBelow(value, peak) >= 23.0 <==> room >= 0.0;
    SameSign(room, peak);
  }

  lemma FallIsMuch(points: seq<Point>, k: nat)
    requires Ordered(points) && k < |points|
    ensures PositiveOn(Values(points), 0, |points|)
    ensures Fall(Values(points), k) >= 23.0 <==> LosesMuch(points, k)
  {
    OrderedIsSound(points);
    var values := Values(points);
    PeakIsMaximum(values, k);
    PeakPositive(values, k);
    var peak := Peak(values, k);
    FallBelowAtLeast(values[k], peak);
    var p :| 0 <= p <= k && values[p] == peak;
    assert points[p].value == peak && points[k].value == values[k];
    forall i | 0 <= i <= k ensures points[i].value <= peak {
      assert values[i] == points[i].value <= peak;
    }
    hide FallBelow, Peak;
  }

  /** A point in view that loses 23 percent, at or after some record. */
  ghost predicate FallsHard(points: seq<Point>, left: int, k: nat, j: nat)
    requires j <= k < |points|
  {
    Seen(points, left, k) && LosesMuch(points, k) && Tops(points, j)
  }

  ghost predicate FallsHardSince(points: seq<Point>, left: int) {
    exists j: nat, k: nat :: j <= k < |points| && FallsHard(points, left, k, j)
  }

  ghost predicate ToppedBy(points: seq<Point>, k: nat) {
    exists j: nat :: j <= k && Tops(points, j)
  }

  lemma ToppedByMeans(points: seq<Point>, k: nat)
    requires k < |points|
    ensures Records(Values(points), k + 1) != [] <==> ToppedBy(points, k)
  {
    var values := Values(points);
    RecordsAreAll(values, k + 1);
    if Records(values, k + 1) != [] {
      var j := Records(values, k + 1)[0];
      assert j in Records(values, k + 1);
      TopsIsRecord(points, j);
    }
    if ToppedBy(points, k) {
      var j: nat :| j <= k && Tops(points, j);
      TopsIsRecord(points, j);
      assert j in Records(values, k + 1);
    }
  }

  lemma SevereMeans(points: seq<Point>, left: int)
    requires Ordered(points)
    ensures Sound(points)
    ensures Severe(Times(points), Values(points), left) <==> FallsHardSince(points, left)
  {
    OrderedIsSound(points);
    var times, values, n := Times(points), Values(points), |points|;
    forall k: nat | k < n
      ensures InView(times, left, k) <==> Seen(points, left, k)
      ensures Fall(values, k) >= 23.0 <==> LosesMuch(points, k)
      ensures Records(values, k + 1) != [] <==> ToppedBy(points, k)
    {
      SeenIsInView(points, left, k);
      FallIsMuch(points, k);
      ToppedByMeans(points, k);
    }
    hide InView, Seen, Fall, LosesMuch, Tops, Ordered, Times, Values, Records;
    if Severe(times, values, left) {
      var k: nat :| k < n && InView(times, left, k) && Fall(values, k) >= 23.0 && Records(values, k + 1) != [];
      var j: nat :| j <= k && Tops(points, j);
      assert FallsHard(points, left, k, j);
    }
  }

  // ----- All facts of a ready curve

  /** The largest value at times up to `at`, with the earliest time it is reached. */
  ghost predicate IsMark(points: seq<Point>, at: int, mark: Option<Mark>) {
    && (mark == None <==> forall j :: 0 <= j < |points| ==> points[j].time > at)
    && (mark.Some? ==> exists k: nat :: Marks(points, at, mark.value, k))
  }

  ghost predicate Marks(points: seq<Point>, at: int, mark: Mark, k: nat) {
    && k < |points| && mark == Mark(points[k].value, points[k].time) && points[k].time <= at
    && (forall j :: 0 <= j < |points| && points[j].time <= at ==>
          points[j].value <= points[k].value && (j < k ==> points[j].value < points[k].value))
  }

  lemma MarkMeans(points: seq<Point>, at: int)
    ensures IsMark(points, at, MarkAt(points, at))
  {
    var times, values, n := Times(points), Values(points), |points|;
    HwmIsEarliestMaximum(times, values, at, n);
    var mark := MarkAt(points, at);
    assert forall j :: 0 <= j < n ==> times[j] == points[j].time && values[j] == points[j].value;
    hide Hwm, Times, Values;
    if mark.Some? {
      var k: nat :| IsEarliestMaximum(times, values, at, n, mark.value, k);
      assert Marks(points, at, mark.value, k);
    }
  }

  /** The end of the report minus 28, 14 and 7 days, in microseconds, bound the three stages. */
  lemma ReadyMeans(points: seq<Point>, end: int)
    requires points != [] && Ordered(points)
    ensures Sound(points)
    ensures var facts := ReadyFacts(points, end);
      && facts.rawCount == |points| && facts.close == points[|points| - 1].value
      && facts.strictAthCount == |AllTops(points)|
      && IsMark(points, end - 2_419_200_000_000, facts.hwm28) && IsMark(points, end - 1_209_600_000_000, facts.hwm14)
      && IsMark(points, end - 604_800_000_000, facts.hwm7) && IsMark(points, end, facts.hwm0)
      && IsStage(points, end - 2_419_200_000_000, end - 1_209_600_000_000, facts.stages.from28)
      && IsStage(points, end - 1_209_600_000_000, end - 604_800_000_000, facts.stages.from14)
      && IsStage(points, end - 604_800_000_000, end, facts.stages.from7)
      && (facts.held <==> facts.stages.from7.count > 0 && facts.hwm7.Some? && facts.close > facts.hwm7.value.value)
  {
    OrderedIsSound(points);
    MarkMeans(points, end - 2_419_200_000_000);
    MarkMeans(points, end - 1_209_600_000_000);
    MarkMeans(points, end - 604_800_000_000);
    MarkMeans(points, end);
    StageMeans(points, end - 2_419_200_000_000, end - 1_209_600_000_000);
    StageMeans(points, end - 1_209_600_000_000, end - 604_800_000_000);
    StageMeans(points, end - 604_800_000_000, end);
    AllTopsAreRecords(points);
    hide IsMark, IsStage, AllTops, MarkAt, StageOf, DeepestInView, Severe, Records, Ordered;
  }

  ghost predicate NeverLosesMore(points: seq<Point>, b: real) {
    forall k: nat :: k < |points| ==> LosesAtMost(points, k, b)
  }

  /** The drawdowns of the last 14 and 7 days and of the whole curve, in percent, by pairs of points; and severity:
      23 percent lost in the last 14 days once a record has been seen. */
  lemma DrawdownsMean(points: seq<Point>, end: int)
    requires points != [] && Ordered(points)
    ensures Sound(points)
    ensures var facts := ReadyFacts(points, end);
      && IsDeepest(points, end - 1_209_600_000_000, facts.dd14) && IsDeepest(points, end - 604_800_000_000, facts.dd7)
      && (forall b :: b <= 100.0 ==> (facts.maxDd <= b <==> NeverLosesMore(points, b)))
      && (facts.severe <==> FallsHardSince(points, end - 1_209_600_000_000))
  {
    OrderedIsSound(points);
    DeepestMeans(points, end - 1_209_600_000_000);
    DeepestMeans(points, end - 604_800_000_000);
    var first := Times(points)[0];
    DeepestMeans(points, first);
    forall k: nat | k < |points| ensures Seen(points, first, k) {
    }
    SevereMeans(points, end - 1_209_600_000_000);
    hide MarkAt, StageOf, DeepestInView, Severe, Records, Ordered, LosesAtMost, FallsHardSince, Seen, Times, Values;
    forall b ensures FallsWithin(points, first, b) <==> NeverLosesMore(points, b) {
    }
  }

  /** When the facts are ready: the curve is not empty, its first point is at least 28 days old at the end, and the
      quality calculation, unless it is cached, raises no objection. */
  lemma ReadinessMeans(points: seq<Point>, end: int, cached: bool, quality: Oracle)
    requires Sound(points)
    ensures FactsOf(points, end, cached, quality).Ready? <==>
      points != [] && end - points[0].time >= 2_419_200_000_000 && (cached || quality(points, end) == None)
    ensures FactsOf(points, end, cached, quality).NotEvaluated? ==>
      var facts := FactsOf(points, end, cached, quality);
      && facts.count == |points|
      && (facts.reason == EmptySource <==> points == [])
      && (facts.reason == W28Unavailable <==> points != [] && end - points[0].time < 2_419_200_000_000)
  {
  }

  // ----- Validation

  /** The k-th sample has a UTC time inside the report that is not before its predecessor's, an index above its
      predecessor's, and a finite value. */
  ghost predicate Passes(samples: seq<Sample>, start: int, end: int, k: nat)
    requires k < |samples|
  {
    && samples[k].time.Some? && start <= samples[k].time.value <= end && samples[k].value.Finite?
    && samples[k].index >= 0
    && (k > 0 ==> samples[k].index > samples[k - 1].index)
    && (k > 0 && samples[k - 1].time.Some? ==> samples[k].time.value >= samples[k - 1].time.value)
  }

  lemma FaultMeans(samples: seq<Sample>, start: int, end: int, k: nat)
    requires k < |samples| && forall j :: 0 <= j < k ==> samples[j].index >= 0
    ensures Fault(samples, start, end, k) == None <==> Passes(samples, start, end, k)
  {
  }

  lemma {:induction false} NoFaultMeans(samples: seq<Sample>, start: int, end: int, n: nat)
    requires n <= |samples|
    ensures NoFault(samples, start, end, n) <==> forall k :: 0 <= k < n ==> Passes(samples, start, end, k)
  {
    if n > 0 {
      NoFaultMeans(samples, start, end, n - 1);
      hide Fault;
      if NoFault(samples, start, end, n - 1) {
        forall j | 0 <= j < n - 1 ensures samples[j].index >= 0 {
          assert Passes(samples, start, end, j);
        }
        FaultMeans(samples, start, end, n - 1);
      }
      hide Passes;
    }
  }

  /** A curve is evaluated exactly when the report interval is not reversed, every sample passes and all values are
      positive. */
  lemma AcceptableMeans(samples: seq<Sample>, start: int, end: int)
    ensures (Acceptable(samples, start, end)
        <==> start <= end && forall k :: 0 <= k < |samples| ==>
          Passes(samples, start, end, k) && samples[k].value.number > 0.0)
  {
    NoFaultMeans(samples, start, end, |samples|);
    hide NoFault;
  }

  /** What a sample is reported for when it is the first that does not pass. */
  ghost predicate Objects(samples: seq<Sample>, start: int, end: int, k: nat, reason: Reason)
    requires k < |samples|
  {
    match samples[k].time
    case None => reason == InvalidUtcTimestamp
    case Some(t) =>
      if samples[k].index < 0 || (k > 0 && samples[k].index <= samples[k - 1].index) then reason == InvalidSampleIndex
      else if k > 0 && samples[k - 1].time.Some? && t < samples[k - 1].time.value then reason == InvalidChronology
      else if t < start || end < t then reason == InvalidInterval
      else if samples[k].value.Unparsable? then reason == ParserMessage(samples[k].value.message)
      else reason == InvalidEquity
  }

  lemma ObjectionMeans(samples: seq<Sample>, start: int, end: int, k: nat, reason: Reason)
    requires start <= end && k < |samples| && !Passes(samples, start, end, k)
    requires forall j :: 0 <= j < k ==> Passes(samples, start, end, j)
    ensures IsObjection(samples, start, end, reason) <==> Objects(samples, start, end, k, reason)
  {
    NoFaultMeans(samples, start, end, k);
    NoFaultMeans(samples, start, end, |samples|);
    forall j | 0 <= j < k ensures samples[j].index >= 0 {
      assert Passes(samples, start, end, j);
    }
    FaultMeans(samples, start, end, k);
    FaultObjects(samples, start, end, k, reason);
    hide Fault, Objects, Passes;
    assert Fault(samples, start, end, k) == Some(reason) ==> IsFirstFault(samples, start, end, k, reason);
    forall j: nat | IsFirstFault(samples, start, end, j, reason) ensures j == k {
      OneFirstFault(samples, start, end, j, k, reason);
    }
  }

  lemma FaultObjects(samples: seq<Sample>, start: int, end: int, k: nat, reason: Reason)
    requires k < |samples| && !Passes(samples, start, end, k) && forall j :: 0 <= j < k ==> samples[j].index >= 0
    ensures Fault(samples, start, end, k) == Some(reason) <==> Objects(samples, start, end, k, reason)
  {
  }

  lemma OneFirstFault(samples: seq<Sample>, start: int, end: int, j: nat, k: nat, reason: Reason)
    requires IsFirstFault(samples, start, end, j, reason) && k < |samples|
    requires NoFault(samples, start, end, k) && Fault(samples, start, end, k).Some?
    ensures j == k
  {
    hide Fault;
  }
}
