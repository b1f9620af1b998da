/** The computation of the regime facts: validation, the single scan, the lookups at the boundaries, and
    the prefixes, proved against `RegimeFacts`. */
module RegimeScan {
  import opened Drawdown
  import opened RegimeFacts
  import opened Sorting
  import opened StepCurves
  import opened Wrappers

  // ----- The scan

  /** One more record for the stage, if its time lies inside. */
  function Noted(stage: Stage, inside: bool, event: Event): Stage {
    if !inside then stage
    else Stage(stage.count + 1, if stage.first == None then Some(event) else stage.first, Some(event))
  }

  lemma StageStep(points: seq<Point>, a: int, b: int, k: nat)
    requires k < |points|
    ensures StageOf(points, a, b, k + 1) ==
      Noted(StageOf(points, a, b, k), Record(Values(points), k) && Between(points[k].time, a, b), EventAt(points, k))
  {
    var hits := Hits(Times(points), Values(points), a, b, k);
    assert hits != [] ==> hits[0] in hits && hits[|hits| - 1] in hits;
    assert (hits + [k])[0] == if hits == [] then k else hits[0];
  }

  /** Every stage whose boundaries enclose the record's time counts it. */
  function NotedIn(stages: Stages, end: int, event: Event): Stages {
    Stages(Noted(stages.from28, Between(event.time, end - 28 * DAY, end - 14 * DAY), event),
           Noted(stages.from14, Between(event.time, end - 14 * DAY, end - 7 * DAY), event),
           Noted(stages.from7, Between(event.time, end - 7 * DAY, end), event))
  }

  lemma StagesStep(points: seq<Point>, end: int, k: nat)
    requires k < |points|
    ensures StagesOf(points, end, k + 1) ==
      if Record(Values(points), k) then NotedIn(StagesOf(points, end, k), end, EventAt(points, k))
      else StagesOf(points, end, k)
  {
    StageStep(points, end - 28 * DAY, end - 14 * DAY, k);
    StageStep(points, end - 14 * DAY, end - 7 * DAY, k);
    StageStep(points, end - 7 * DAY, end, k);
  }

  /** A 23% fall at or after `left`, at one of the first `n` points, once some record has been seen. */
  predicate DeepFallBy(points: seq<Point>, left: int, n: nat)
    requires n <= |points| && PositiveOn(Values(points), 0, |points|)
  {
    n > 0 && (DeepFallBy(points, left, n - 1) ||
      (points[n - 1].time >= left && Fall(Values(points), n - 1) >= 23.0 && Records(Values(points), n) != []))
  }

  /** The single pass over the points: running peak, stage counters, records and falls. */
  method Scan(points: seq<Point>, end: int)
    returns (stages: Stages, records: seq<nat>, falls: seq<real>, deepFall: bool)
    requires points != [] && PositiveOn(Values(points), 0, |points|)
    ensures stages == StagesOf(points, end, |points|)
    ensures records == Records(Values(points), |points|)
    ensures |falls| == |points| && forall k :: 0 <= k < |points| ==> falls[k] == Fall(Values(points), k)
    ensures deepFall == DeepFallBy(points, end - 14 * DAY, |points|)
  {
    var peak, growthSeen := points[0].value, false;
    var none := Stage(0, None, None);
    stages, records, falls, deepFall := Stages(none, none, none), [], [], false;
    assert Scanned(points, end, 0, peak, stages, records, growthSeen, falls, deepFall);
    hide Scanned, NotedIn, EventAt, FallBelow, PositiveOn, StagesOf, DeepFallBy, Records, Fall, Peak;
    for k := 0 to |points|
      invariant Scanned(points, end, k, peak, stages, records, growthSeen, falls, deepFall)
    {
      ghost var was := (peak, stages, records, growthSeen, falls, deepFall);
      PeakStaysPositive(points, end, k, peak, stages, records, growthSeen, falls, deepFall);
      if points[k].value > peak {
        peak := points[k].value;
        if k > 0 {
          records := records + [k];
          growthSeen := true;
          stages := NotedIn(stages, end, EventAt(points, k));
        }
      }
      var fall := FallBelow(points[k].value, peak);
      falls := falls + [fall];
      if points[k].time >= end - 14 * DAY && fall >= 23.0 && growthSeen {
        deepFall := true;
      }
      ScanNext(points, end, k, was.0, was.1, was.2, was.3, was.4, was.5, peak, stages, records, growthSeen, falls,
          deepFall);
    }
    ScanEnds(points, end, peak, stages, records, growthSeen, falls, deepFall);
  }

  /** Everything the scan knows after `k` points. */
  ghost predicate Scanned(points: seq<Point>, end: int, k: nat, peak: real, stages: Stages, records: seq<nat>,
                          growthSeen: bool,
                          falls: seq<real>, deepFall: bool)
  {
    && points != [] && PositiveOn(Values(points), 0, |points|) && k <= |points|
    && peak == (if k == 0 then points[0].value else Peak(Values(points), k - 1))
    && stages == StagesOf(points, end, k)
    && records == Records(Values(points), k) && (growthSeen <==> records != [])
    && |falls| == k && (forall j :: 0 <= j < k ==> falls[j] == Fall(Values(points), j))
    && deepFall == DeepFallBy(points, end - 14 * DAY, k)
  }

  lemma PeakStaysPositive(points: seq<Point>, end: int, k: nat, peak: real, stages: Stages, records: seq<nat>,
                          growthSeen: bool,
                          falls: seq<real>, deepFall: bool)
    requires Scanned(points, end, k, peak, stages, records, growthSeen, falls, deepFall) && k < |points|
    ensures peak > 0.0 && points[k].value > 0.0
  {
    PeakPositive(Values(points), if k == 0 then 0 else k - 1);
    assert Values(points)[k] == points[k].value && Values(points)[0] == points[0].value;
  }

  lemma ScanNext(points: seq<Point>, end: int, k: nat, peak: real, stages: Stages, records: seq<nat>, growthSeen: bool,
                 falls: seq<real>,
                 deepFall: bool, peak': real, stages': Stages, records': seq<nat>, growthSeen': bool, falls': seq<real>,
                 deepFall': bool)
    requires Scanned(points, end, k, peak, stages, records, growthSeen, falls, deepFall) && k < |points|
    requires peak' == (if points[k].value > peak then points[k].value else peak) && peak' > 0.0
    requires var record := points[k].value > peak && k > 0;
      && records' == (if record then records + [k] else records) && growthSeen' == (growthSeen || record)
      && stages' == (if record then NotedIn(stages, end, EventAt(points, k)) else stages)
    requires falls' == falls + [FallBelow(points[k].value, peak')]
    requires deepFall' == (deepFall
      || (points[k].time >= end - 14 * DAY && FallBelow(points[k].value, peak') >= 23.0 && growthSeen'))
    ensures Scanned(points, end, k + 1, peak', stages', records', growthSeen', falls', deepFall')
  {
    StagesStep(points, end, k);
    ScanStep(points, end - 14 * DAY, k);
    hide NotedIn, EventAt, FallBelow, PositiveOn, StagesOf, DeepFallBy, Records, Fall, Peak;
  }

  lemma ScanEnds(points: seq<Point>, end: int, peak: real, stages: Stages, records: seq<nat>, growthSeen: bool,
                 falls: seq<real>, deepFall: bool)
    requires Scanned(points, end, |points|, peak, stages, records, growthSeen, falls, deepFall)
    ensures stages == StagesOf(points, end, |points|) && records == Records(Values(points), |points|)
    ensures |falls| == |points| && forall k :: 0 <= k < |points| ==> falls[k] == Fall(Values(points), k)
    ensures deepFall == DeepFallBy(points, end - 14 * DAY, |points|)
  {
  }

  /** What one more point does to the peak, the records, the falls and the severity flag. */
  lemma ScanStep(points: seq<Point>, left: int, k: nat)
    requires k < |points| && PositiveOn(Values(points), 0, |points|)
    ensures var values := Values(points);
      && values[k] == points[k].value && (k == 0 ==> values[0] == points[0].value)
      && Peak(values, k) == (if k > 0 && values[k] <= Peak(values, k - 1) then Peak(values, k - 1) else values[k])
      && (Record(values, k) <==> k > 0 && values[k] > Peak(values, k - 1))
      && Records(values, k + 1) == (if Record(values, k) then Records(values, k) + [k] else Records(values, k))
      && Peak(values, k) > 0.0 && Fall(values, k) == FallBelow(values[k], Peak(values, k))
      && DeepFallBy(points, left, k + 1) ==
        (DeepFallBy(points, left, k)
          || (points[k].time >= left && Fall(values, k) >= 23.0 && Records(values, k + 1) != []))
  {
    PeakPositive(Values(points), k);
  }

  function UpToTime(at: int): Point -> bool { (p: Point) => p.time <= at }

  /** The earliest maximum is an entry of the selected points, and smaller values come before it. */
  lemma EarliestIsSelected(points: seq<Point>, at: int, mark: Mark, k: nat) returns (m: nat)
    requires IsEarliestMaximum(Times(points), Values(points), at, |points|, mark, k)
    ensures m < |Where(points, UpToTime(at))| && Where(points, UpToTime(at))[m] == points[k]
    ensures forall e :: 0 <= e < m ==> Where(points, UpToTime(at))[e].value < points[k].value
  {
    var before, initial := Where(points[..k], UpToTime(at)), Where(points, UpToTime(at));
    m := |before|;
    WhereStep(points, k, UpToTime(at), m);
    hide Sorting.Where, Hwm;
    forall e | 0 <= e < m ensures initial[e].value < points[k].value {
      assert before[e] in before && before[e] == initial[e];
      var f :| 0 <= f < k && points[..k][f] == before[e];
      assert Times(points)[f] <= at && Values(points)[f] < Values(points)[k];
    }
  }

  /** The first of the points up to `at` that reaches their largest value carries the mark. */
  lemma FirstLargestIsMark(points: seq<Point>, at: int, initial: seq<Point>, i: nat)
    requires initial == Where(points, UpToTime(at)) && i < |initial|
    requires forall j :: 0 <= j < |initial| ==> initial[j].value <= initial[i].value
    requires forall j :: 0 <= j < i ==> initial[j].value != initial[i].value
    ensures MarkAt(points, at) == Some(Mark(initial[i].value, initial[i].time))
  {
    var times, values := Times(points), Values(points);
    HwmIsEarliestMaximum(times, values, at, |points|);
    assert initial[i] in initial;
    var j :| 0 <= j < |points| && points[j] == initial[i];
    hide Sorting.Where, Hwm;
    assert times[j] <= at && values[j] == initial[i].value;
    var mark := MarkAt(points, at).value;
    var k: nat :| IsEarliestMaximum(times, values, at, |points|, mark, k);
    var m := EarliestIsSelected(points, at, mark, k);
    assert values[j] <= values[k] == initial[m].value <= initial[i].value;
  }

  /** The largest value among the points up to `at`, then the first of them that has it. */
  method HighMark(points: seq<Point>, at: int) returns (mark: Option<Mark>)
    ensures mark == MarkAt(points, at)
  {
    var initial := Where(points, UpToTime(at));
    if initial == [] {
      NoMark(points, at);
      return None;
    }
    var largest := initial[0].value;
    for k := 1 to |initial|
      invariant forall j :: 0 <= j < k ==> initial[j].value <= largest
      invariant exists j :: 0 <= j < k && initial[j].value == largest
    {
      if initial[k].value > largest {
        largest := initial[k].value;
      }
    }
    var i := 0;
    while initial[i].value != largest
      invariant i < |initial| && forall j :: 0 <= j < i ==> initial[j].value != largest
      decreases |initial| - i
    {
      i := i + 1;
    }
    FirstLargestIsMark(points, at, initial, i);
    return Some(Mark(largest, initial[i].time));
  }

  lemma NoMark(points: seq<Point>, at: int)
    requires Where(points, UpToTime(at)) == []
    ensures MarkAt(points, at) == None
  {
    HwmIsEarliestMaximum(Times(points), Values(points), at, |points|);
    forall k | 0 <= k < |points| ensures points[k].time > at {
      WhereStep(points, k, UpToTime(at), |Where(points[..k], UpToTime(at))|);
    }
  }

  /** The deepest of the falls in [left, end] and of the last fall at or before `left`. */
  method WindowFall(points: seq<Point>, falls: seq<real>, left: int, end: int)
    returns (dd: Option<real>, anchor: Option<nat>)
    requires Sound(points) && EndsBy(points, end) && |falls| == |points|
    requires forall k :: 0 <= k < |points| ==> falls[k] == Fall(Values(points), k)
    ensures dd == DeepestInView(Times(points), Values(points), left, |points|)
    ensures IsAnchor(Times(points), left, anchor, |points|)
  {
    var worst: Option<real> := None;
    anchor := None;
    hide Sound, Fall, Values;
    for k := 0 to |points|
      invariant IsAnchor(Times(points), left, anchor, k)
      invariant forall j :: 0 <= j < k && points[j].time >= left ==> worst.Some? && falls[j] <= worst.value
      invariant worst.Some? ==> exists j :: 0 <= j < k && points[j].time >= left && falls[j] == worst.value
    {
      if left <= points[k].time <= end && (worst == None || falls[k] > worst.value) {
        worst := Some(falls[k]);
      }
      if points[k].time <= left {
        anchor := Some(k);
      }
    }
    dd := worst;
    if anchor.Some? && (dd == None || falls[anchor.value] > dd.value) {
      dd := Some(falls[anchor.value]);
    }
    WindowHoldsDeepest(points, falls, left, worst, anchor, dd);
  }

  lemma WindowHoldsDeepest(points: seq<Point>, falls: seq<real>, left: int, worst: Option<real>, anchor: Option<nat>,
                           dd: Option<real>)
    requires Sound(points) && |falls| == |points|
    requires forall k :: 0 <= k < |points| ==> falls[k] == Fall(Values(points), k)
    requires IsAnchor(Times(points), left, anchor, |points|)
    requires forall j :: 0 <= j < |points| && points[j].time >= left ==> worst.Some? && falls[j] <= worst.value
    requires worst.Some? ==> exists j :: 0 <= j < |points| && points[j].time >= left && falls[j] == worst.value
    requires dd == if anchor.Some? && (worst == None || falls[anchor.value] > worst.value)
      then Some(falls[anchor.value]) else worst
    ensures dd == DeepestInView(Times(points), Values(points), left, |points|)
  {
    var times, values := Times(points), Values(points);
    hide Fall, DeepestInView;
    forall k | 0 <= k < |points| && InView(times, left, k) ensures dd.Some? && Fall(values, k) <= dd.value {
      if times[k] < left {
        AnchorIsLast(times, left, anchor, k);
      }
      assert points[k].time == times[k] && falls[k] == Fall(values, k);
    }
    if anchor.Some? {
      AnchorInView(times, left, anchor.value);
    }
    if worst.Some? {
      var j :| 0 <= j < |points| && points[j].time >= left && falls[j] == worst.value;
      assert InView(times, left, j);
    }
    hide InView;
    assert IsDeepestInView(times, values, left, |points|, dd);
    DeepestInViewIsDeepest(times, values, left, |points|);
  }

  /** The last of the first `n` positions at or before `left`, if there is one. */
  ghost predicate IsAnchor(times: seq<int>, left: int, anchor: Option<nat>, n: nat)
    requires n <= |times|
  {
    && (anchor == None ==> forall j :: 0 <= j < n ==> times[j] > left)
    && (anchor.Some? ==> anchor.value < n && times[anchor.value] <= left && forall j :: anchor.value < j < n ==>
      times[j] > left)
  }

  lemma AnchorIsLast(times: seq<int>, left: int, anchor: Option<nat>, k: nat)
    requires NonDecreasing(times) && IsAnchor(times, left, anchor, |times|)
    requires k < |times| && InView(times, left, k) && times[k] < left
    ensures anchor == Some(k)
  {
    assert k + 1 < |times| ==> times[k + 1] > left;
    assert anchor.Some? && anchor.value >= k;
  }

  lemma AnchorInView(times: seq<int>, left: int, k: nat)
    requires IsAnchor(times, left, Some(k), |times|)
    ensures InView(times, left, k)
  {
  }

  /** Both clauses of the severity flag together mean: a deep fall in view after some record. */
  lemma SevereIs(points: seq<Point>, left: int, anchor: Option<nat>)
    requires Sound(points) && IsAnchor(Times(points), left, anchor, |points|)
    ensures Severe(Times(points), Values(points), left) <==>
      || DeepFallBy(points, left, |points|)
      || (anchor.Some? && Fall(Values(points), anchor.value) >= 23.0 && RecordBy(points, left))
  {
    var times, values, n := Times(points), Values(points), |points|;
    DeepFallIs(points, left, n);
    if Severe(times, values, left) {
      var k :| 0 <= k < n && InView(times, left, k) && Fall(values, k) >= 23.0 && Records(values, k + 1) != [];
      hide Fall, Records, PositiveOn, Severe, DeepFallBy;
      if times[k] < left {
        AnchorIsLast(times, left, anchor, k);
        AnchoredRecord(points, left, k);
      }
    }
    hide Fall, Records, PositiveOn, DeepFallBy;
    if DeepFallBy(points, left, n) {
      var k :| 0 <= k < n && points[k].time >= left && Fall(values, k) >= 23.0 && Records(values, k + 1) != [];
      assert InView(times, left, k);
    }
    if anchor.Some? && Fall(values, anchor.value) >= 23.0 && RecordBy(points, left) {
      AnchorInView(times, left, anchor.value);
      AnchoredRecord(points, left, anchor.value);
    }
  }

  /** With `k` the last position at or before `left`: a record by then is a record by time `left`. */
  lemma AnchoredRecord(points: seq<Point>, left: int, k: nat)
    requires Sound(points) && k < |points| && IsAnchor(Times(points), left, Some(k), |points|)
    ensures Records(Values(points), k + 1) != [] <==> RecordBy(points, left)
  {
    var times, values := Times(points), Values(points);
    RecordsAreAll(values, k + 1);
    RecordsAreAll(values, |points|);
    hide Records, PositiveOn;
    if Records(values, k + 1) != [] {
      var j := Records(values, k + 1)[0];
      assert j in Records(values, k + 1) && times[j] <= times[k];
      assert j in Records(values, |points|) && points[j].time <= left;
    }
    if RecordBy(points, left) {
      var j :| j in Records(values, |points|) && points[j].time <= left;
      assert times[j] <= left;
      assert j in Records(values, k + 1);
    }
  }

  /** Some strict record lies at or before `left`. */
  predicate RecordBy(points: seq<Point>, left: int) {
    exists k :: k in Records(Values(points), |points|) && k < |points| && points[k].time <= left
  }

  lemma {:induction false} DeepFallIs(points: seq<Point>, left: int, n: nat)
    requires n <= |points| && PositiveOn(Values(points), 0, |points|)
    ensures DeepFallBy(points, left, n) <==>
      exists k :: 0 <= k < n && points[k].time >= left && Fall(Values(points), k) >= 23.0
        && Records(Values(points), k + 1) != []
  {
    hide Fall;
    if n > 0 {
      DeepFallIs(points, left, n - 1);
    }
  }

  /** `max` over all falls. */
  method MaxFall(points: seq<Point>, falls: seq<real>) returns (worst: real)
    requires points != [] && Sound(points) && |falls| == |points|
    requires forall k :: 0 <= k < |points| ==> falls[k] == Fall(Values(points), k)
    ensures Some(worst) == DeepestInView(Times(points), Values(points), points[0].time, |points|)
  {
    worst := falls[0];
    for k := 1 to |points|
      invariant forall j :: 0 <= j < k ==> falls[j] <= worst
      invariant exists j :: 0 <= j < k && falls[j] == worst
    {
      if falls[k] > worst {
        worst := falls[k];
      }
    }
    ghost var times := Times(points);
    assert times[0] == points[0].time && forall k :: 0 <= k < |times| ==> times[0] <= times[k];
    assert forall k :: 0 <= k < |points| ==> InView(times, points[0].time, k);
    ghost var deepest :| 0 <= deepest < |points| && falls[deepest] == worst;
    hide Fall, InView;
    assert Fall(Values(points), deepest) == worst && InView(times, points[0].time, deepest);
    assert forall k :: 0 <= k < |points| ==> Fall(Values(points), k) <= worst;
    assert IsDeepestInView(Times(points), Values(points), points[0].time, |points|, Some(worst));
    DeepestInViewIsDeepest(Times(points), Values(points), points[0].time, |points|);
  }

  /** The facts of a curve that reaches back 28 days. */
  method Measure(points: seq<Point>, end: int) returns (facts: Facts)
    requires points != [] && Sound(points) && EndsBy(points, end)
    ensures facts == ReadyFacts(points, end)
  {
    var left14, left7, close := end - 14 * DAY, end - 7 * DAY, points[|points| - 1].value;
    ghost var times, values := Times(points), Values(points);
    assert close == values[|points| - 1] && points[0].time == times[0];
    hide *;
    var stages, records, falls, deepFall := Scan(points, end);
    var dd14, anchor := WindowFall(points, falls, left14, end);
    SevereIs(points, left14, anchor);
    var severe := deepFall || (anchor.Some? && falls[anchor.value] >= 23.0 && RecordBy(points, left14));
    var dd7, _ := WindowFall(points, falls, left7, end);
    var maxDd := MaxFall(points, falls);
    var hwm28 := HighMark(points, end - 28 * DAY);
    var hwm14 := HighMark(points, left14);
    var hwm7 := HighMark(points, left7);
    var hwm0 := HighMark(points, end);
    var held := stages.from7.count > 0 && Above(close, hwm7);
    facts := Ready(|points|, hwm28, hwm14, hwm7, hwm0, stages, dd14, dd7, maxDd, held, close, |records|, severe);
    ReadyIs(points, end, facts);
  }

  /** `_at_facts_precise`. */
  method AtFacts(points: seq<Point>, end: int, cached: bool, quality: Oracle) returns (facts: Facts)
    requires Sound(points) && EndsBy(points, end)
    ensures facts == FactsOf(points, end, cached, quality)
  {
    if points == [] {
      return NotEvaluated(EmptySource, 0);
    }
    if points[0].time > end - 28 * DAY {
      return NotEvaluated(W28Unavailable, |points|);
    }
    if !cached {
      var refusal := quality(points, end);
      if refusal.Some? {
        return NotEvaluated(Quality(refusal.value), |points|);
      }
    }
    facts := Measure(points, end);
  }

  /** The clauses of the ready facts, one by one. */
  lemma ReadyIs(points: seq<Point>, end: int, f: Facts)
    requires points != [] && Sound(points) && f.Ready? && f.rawCount == |points|
    requires f.hwm28 == MarkAt(points, end - 28 * DAY) && f.hwm14 == MarkAt(points, end - 14 * DAY)
    requires f.hwm7 == MarkAt(points, end - 7 * DAY) && f.hwm0 == MarkAt(points, end)
    requires f.stages == StagesOf(points, end, |points|)
    requires f.dd14 == DeepestInView(Times(points), Values(points), end - 14 * DAY, |points|)
    requires f.dd7 == DeepestInView(Times(points), Values(points), end - 7 * DAY, |points|)
    requires Some(f.maxDd) == DeepestInView(Times(points), Values(points), points[0].time, |points|)
    requires f.held == (f.stages.from7.count > 0 && Above(f.close, f.hwm7)) && f.close == points[|points| - 1].value
    requires f.strictAthCount == |Records(Values(points), |points|)|
    requires f.severe == Severe(Times(points), Values(points), end - 14 * DAY)
    ensures f == ReadyFacts(points, end)
  {
    hide Hits, Hwm, Records, DeepestInView, Severe, Fall, StagesOf, PositiveOn, NonDecreasing, MarkAt;
  }

  // ----- Validation

  /** A value as it arrives: a finite number, a missing, boolean or infinite one, or a text that the
      decimal parser rejects with a message of its own. */
  datatype Reading = Finite(number: real) | Unusable | Unparsable(message: int)

  /** A point as it arrives: `time` is None when it is not a UTC stamp. */
  datatype Sample = Sample(index: int, time: Option<int>, value: Reading)

  /** What the validation of sample `k` objects to, given that all earlier ones passed. */
  function Fault(samples: seq<Sample>, start: int, end: int, k: nat): Option<Reason>
    requires k < |samples|
  {
    var s := samples[k];
    if s.time == None then Some(InvalidUtcTimestamp)
    else if s.index <= if k == 0 then -1 else samples[k - 1].index then Some(InvalidSampleIndex)
    else if k > 0 && samples[k - 1].time.Some? && s.time.value < samples[k - 1].time.value then Some(InvalidChronology)
    else if !(start <= s.time.value <= end) then Some(InvalidInterval)
    else if s.value.Unparsable? then Some(ParserMessage(s.value.message))
    else if s.value.Unusable? then Some(InvalidEquity)
    else None
  }

  /** The points are the samples, in order. */
  ghost predicate Parses(points: seq<Point>, samples: seq<Sample>, n: nat) {
    && n == |points| <= |samples|
    && (forall k :: 0 <= k < n ==> samples[k] == Sample(points[k].index, Some(points[k].time), Finite(points[k].value)))
  }

  /** Sample order first; the first faulty sample decides the reason. */
  method Validate(samples: seq<Sample>, start: int, end: int) returns (result: Result<seq<Point>, Reason>)
    ensures result.Err? ==> IsObjection(samples, start, end, result.error)
    ensures result.Ok? <==> Acceptable(samples, start, end)
    ensures result.Ok? ==> Parses(result.value, samples, |samples|)
    ensures result.Ok? ==> Sound(result.value) && EndsBy(result.value, end)
    ensures result.Ok? ==> forall a, b :: 0 <= a < b < |samples| ==> samples[a].index < samples[b].index
  {
    if end < start {
      return Err(InvalidReportInterval);
    }
    hide Fault;
    var parsed: seq<Point>, nonpositive := [], 0;
    for k := 0 to |samples|
      invariant Parses(parsed, samples, k) && NoFault(samples, start, end, k)
      invariant nonpositive == 0 <==> forall j :: 0 <= j < k ==> parsed[j].value > 0.0
      invariant nonpositive >= 0
    {
      var fault := Fault(samples, start, end, k);
      if fault.Some? {
        assert IsFirstFault(samples, start, end, k, fault.value);
        return Err(fault.value);
      }
      FaultlessSample(samples, start, end, k);
      var s := samples[k];
      if s.value.number <= 0.0 {
        nonpositive := nonpositive + 1;
      }
      parsed := parsed + [Point(s.index, s.time.value, s.value.number)];
    }
    if nonpositive > 0 {
      return Err(NonpositiveEquity);
    }
    FaultlessIsOrdered(parsed, samples, start, end, |samples|);
    return Ok(parsed);
  }

  /** The one reason for which a curve is not evaluated, if there is one. */
  ghost predicate IsObjection(samples: seq<Sample>, start: int, end: int, reason: Reason) {
    if end < start then reason == InvalidReportInterval
    else if NoFault(samples, start, end, |samples|) then reason == NonpositiveEquity && SomeNonpositive(samples)
    else exists k :: IsFirstFault(samples, start, end, k, reason)
  }

  ghost predicate Acceptable(samples: seq<Sample>, start: int, end: int) {
    start <= end && NoFault(samples, start, end, |samples|) && !SomeNonpositive(samples)
  }

  lemma FaultlessSample(samples: seq<Sample>, start: int, end: int, k: nat)
    requires k < |samples| && Fault(samples, start, end, k) == None
    ensures samples[k].time.Some? && samples[k].time.value <= end && samples[k].value.Finite?
    ensures k > 0 ==> samples[k - 1].index < samples[k].index
    ensures k > 0 && samples[k - 1].time.Some? ==> samples[k - 1].time.value <= samples[k].time.value
  {
  }

  lemma {:induction false} FaultlessIsOrdered(points: seq<Point>, samples: seq<Sample>, start: int, end: int, n: nat)
    requires Parses(points, samples, |samples|) && NoFault(samples, start, end, |samples|) && n <= |samples|
    ensures forall a, b :: 0 <= a <= b < n ==> points[a].time <= points[b].time <= end
    ensures forall a, b :: 0 <= a < b < n ==> samples[a].index < samples[b].index
  {
    if n > 0 {
      FaultlessIsOrdered(points, samples, start, end, n - 1);
      FaultlessSample(samples, start, end, n - 1);
    }
  }

  ghost predicate SomeNonpositive(samples: seq<Sample>) {
    exists k :: 0 <= k < |samples| && samples[k].value.Finite? && samples[k].value.number <= 0.0
  }

  ghost predicate NoFault(samples: seq<Sample>, start: int, end: int, n: nat) {
    n <= |samples| && forall j :: 0 <= j < n ==> Fault(samples, start, end, j) == None
  }

  ghost predicate IsFirstFault(samples: seq<Sample>, start: int, end: int, k: nat, reason: Reason) {
    k < |samples| && NoFault(samples, start, end, k) && Fault(samples, start, end, k) == Some(reason)
  }

  datatype Assessed = Assessed(facts: Facts, prefix14: Option<Facts>, prefix7: Option<Facts>)

  /** `curve_facts`: validate, then the facts at the end and, when asked and ready, at T-14 and T-7. */
  method CurveFacts(samples: seq<Sample>, start: int, end: int, cached: bool, quality: Oracle, prefixes: bool)
    returns (result: Assessed, ghost points: seq<Point>)
    ensures !Acceptable(samples, start, end) ==>
      result.facts.NotEvaluated? && IsObjection(samples, start, end, result.facts.reason)
        && result.facts.count == |samples|
    ensures Acceptable(samples, start, end) ==>
      Parses(points, samples, |samples|) && Sound(points) && EndsBy(points, end)
        && result.facts == FactsOf(points, end, cached, quality)
    ensures !(result.facts.Ready? && prefixes) ==> result.prefix14 == None && result.prefix7 == None
    ensures result.facts.Ready? && prefixes ==>
      Sound(Prefix(points, end - 14 * DAY)) && Sound(Prefix(points, end - 7 * DAY))
    ensures result.facts.Ready? && prefixes ==>
      && result.prefix14 == Some(FactsOf(Prefix(points, end - 14 * DAY), end - 14 * DAY, false, quality))
      && result.prefix7 == Some(FactsOf(Prefix(points, end - 7 * DAY), end - 7 * DAY, false, quality))
  {
    hide Sound, EndsBy, ReadyFacts, NoFault, IsFirstFault, IsObjection, Acceptable, FactsOf;
    points := [];
    var validated := Validate(samples, start, end);
    if validated.Err? {
      return Assessed(NotEvaluated(validated.error, |samples|), None, None), points;
    }
    var parsed := validated.value;
    points := parsed;
    var facts := AtFacts(parsed, end, cached, quality);
    result := Assessed(facts, None, None);
    if prefixes && facts.Ready? {
      PrefixIs(parsed, end - 14 * DAY);
      PrefixIs(parsed, end - 7 * DAY);
      var at14 := AtFacts(Prefix(parsed, end - 14 * DAY), end - 14 * DAY, false, quality);
      var at7 := AtFacts(Prefix(parsed, end - 7 * DAY), end - 7 * DAY, false, quality);
      result := Assessed(facts, Some(at14), Some(at7));
    }
  }
}
