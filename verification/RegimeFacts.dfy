/** High-water-mark facts of an equity curve at an end moment: strict records counted per stage, the
    marks at the stage boundaries, falls below the running peak, and the facts of earlier prefixes. */
module RegimeFacts {
  import opened Drawdown
  import opened StepCurves
  import opened Wrappers

  /** Times are whole microseconds, Python's datetime resolution. */
  const DAY: int := 86_400_000_000

  datatype Point = Point(index: int, time: int, value: real)

  function Times(points: seq<Point>): (times: seq<int>)
    ensures |times| == |points|
  {
    seq(|points|, k requires 0 <= k < |points| => points[k].time)
  }

  function Values(points: seq<Point>): (values: seq<real>)
    ensures |values| == |points|
  {
    seq(|points|, k requires 0 <= k < |points| => points[k].value)
  }

  // ----- Strict records

  /** A value strictly above everything before it; the first value is not a record. */
  predicate Record(values: seq<real>, k: nat)
    requires k < |values|
  {
    k > 0 && values[k] > Peak(values, k - 1)
  }

  predicate Between(t: int, a: int, b: int) {
    a < t <= b
  }

  /** The positions below `n` of the records whose time lies in (a, b]. */
  function Hits(times: seq<int>, values: seq<real>, a: int, b: int, n: nat): (hits: seq<nat>)
    requires n <= |times| == |values|
    ensures forall k :: k in hits ==> k < n
  {
    if n == 0 then []
    else if Record(values, n - 1) && Between(times[n - 1], a, b) then Hits(times, values, a, b, n - 1) + [n - 1]
    else Hits(times, values, a, b, n - 1)
  }

  function Records(values: seq<real>, n: nat): seq<nat>
    requires n <= |values|
  {
    if n == 0 then []
    else if Record(values, n - 1) then Records(values, n - 1) + [n - 1]
    else Records(values, n - 1)
  }

  lemma {:induction false} RecordsAreAll(values: seq<real>, n: nat)
    requires n <= |values|
    ensures forall k: nat :: k in Records(values, n) <==> k < n && Record(values, k)
  {
    if n > 0 {
      RecordsAreAll(values, n - 1);
    }
  }

  // ----- High-water marks

  datatype Mark = Mark(value: real, time: int)

  /** The largest value at times up to `at` among the first `n`, with the earliest time it was reached. */
  function Hwm(times: seq<int>, values: seq<real>, at: int, n: nat): Option<Mark>
    requires n <= |times| == |values|
  {
    if n == 0 then None
    else
      var rest := Hwm(times, values, at, n - 1);
      if times[n - 1] <= at && (rest == None || values[n - 1] > rest.value.value)
      then Some(Mark(values[n - 1], times[n - 1]))
      else rest
  }

  ghost predicate IsEarliestMaximum(times: seq<int>, values: seq<real>, at: int, n: nat, m: Mark, k: nat)
    requires n <= |times| == |values|
  {
    && k < n && m == Mark(values[k], times[k]) && times[k] <= at
    && (forall j :: 0 <= j < n && times[j] <= at ==> values[j] <= values[k])
    && (forall j :: 0 <= j < k && times[j] <= at ==> values[j] < values[k])
  }

  lemma {:induction false} HwmIsEarliestMaximum(times: seq<int>, values: seq<real>, at: int, n: nat)
    requires n <= |times| == |values|
    ensures Hwm(times, values, at, n) == None <==> forall j :: 0 <= j < n ==> times[j] > at
    ensures Hwm(times, values, at, n).Some? ==>
      exists k :: IsEarliestMaximum(times, values, at, n, Hwm(times, values, at, n).value, k)
  {
    if n > 0 {
      HwmIsEarliestMaximum(times, values, at, n - 1);
      var rest, whole := Hwm(times, values, at, n - 1), Hwm(times, values, at, n);
      if whole.Some? {
        if whole == rest {
          var k :| IsEarliestMaximum(times, values, at, n - 1, rest.value, k);
          assert IsEarliestMaximum(times, values, at, n, whole.value, k);
        } else {
          assert IsEarliestMaximum(times, values, at, n, whole.value, n - 1);
        }
      }
    }
  }

  /** Once every time so far is covered the mark is the running peak. */
  lemma {:induction false} HwmIsPeak(times: seq<int>, values: seq<real>, at: int, n: nat)
    requires 0 < n <= |times| == |values| && NonDecreasing(times) && times[n - 1] <= at
    ensures Hwm(times, values, at, n).Some? && Hwm(times, values, at, n).value.value == Peak(values, n - 1)
  {
    if n > 1 {
      HwmIsPeak(times, values, at, n - 1);
    }
  }

  /** The two encodings agree: a stage holds a strict record exactly when the mark rises across it. */
  lemma {:induction false} StageRises(times: seq<int>, values: seq<real>, a: int, b: int, n: nat)
    requires 0 < n <= |times| == |values| && NonDecreasing(times) && times[0] <= a <= b
    ensures Hwm(times, values, a, n).Some? && Hwm(times, values, b, n).Some?
    ensures Hwm(times, values, a, n).value.value <= Hwm(times, values, b, n).value.value
    ensures Hits(times, values, a, b, n) != [] <==>
      Hwm(times, values, a, n).value.value < Hwm(times, values, b, n).value.value
  {
    if n > 1 {
      StageRises(times, values, a, b, n - 1);
      if times[n - 1] <= b {
        HwmIsPeak(times, values, b, n - 1);
        if times[n - 1] <= a {
          HwmIsPeak(times, values, a, n - 1);
          HwmIsPeak(times, values, a, n);
          HwmIsPeak(times, values, b, n);
        }
      }
    }
  }

  lemma {:induction false} NoHitsYet(times: seq<int>, values: seq<real>, a: int, b: int, n: nat)
    requires n <= |times| == |values| && NonDecreasing(times) && (n > 0 ==> times[n - 1] <= a)
    ensures Hits(times, values, a, b, n) == []
  {
    if n > 0 {
      NoHitsYet(times, values, a, b, n - 1);
    }
  }

  /** Adjacent stages join: their records are those of the joint stage, in order. */
  lemma {:induction false} HitsJoin(times: seq<int>, values: seq<real>, a: int, b: int, c: int, n: nat)
    requires n <= |times| == |values| && NonDecreasing(times) && a <= b <= c
    ensures Hits(times, values, a, b, n) + Hits(times, values, b, c, n) == Hits(times, values, a, c, n)
  {
    if n > 0 {
      HitsJoin(times, values, a, b, c, n - 1);
      if times[n - 1] <= b {
        NoHitsYet(times, values, b, c, n - 1);
      }
    }
  }

  /** Points after `b` change neither the stage ending there nor the mark there. */
  lemma {:induction false} LaterIsIgnored(times: seq<int>, values: seq<real>, a: int, b: int, m: nat, n: nat)
    requires m <= n <= |times| == |values| && forall k :: m <= k < n ==> times[k] > b
    ensures Hits(times, values, a, b, n) == Hits(times, values, a, b, m)
    ensures Hwm(times, values, b, n) == Hwm(times, values, b, m)
  {
    if m < n {
      LaterIsIgnored(times, values, a, b, m, n - 1);
    }
  }

  lemma {:induction false} PeakTake(values: seq<real>, m: nat, k: nat)
    requires k < m <= |values|
    ensures Peak(values[..m], k) == Peak(values, k)
  {
    if k > 0 {
      PeakTake(values, m, k - 1);
    }
  }

  lemma {:induction false} TakeIsEnough(times: seq<int>, values: seq<real>, a: int, b: int, m: nat, n: nat)
    requires n <= m <= |times| == |values|
    ensures Hits(times[..m], values[..m], a, b, n) == Hits(times, values, a, b, n)
    ensures Hwm(times[..m], values[..m], b, n) == Hwm(times, values, b, n)
  {
    if n > 0 {
      TakeIsEnough(times, values, a, b, m, n - 1);
      if n > 1 {
        PeakTake(values, m, n - 2);
      }
    }
  }

  // ----- Falls below the running peak

  /** The percentage by which a value lies below a peak. */
  function FallBelow(value: real, peak: real): real
    requires peak > 0.0
  {
    100.0 * (1.0 - value / peak)
  }

  function Fall(values: seq<real>, k: nat): real
    requires k < |values| && PositiveOn(values, 0, |values|)
  {
    PeakPositive(values, k);
    FallBelow(values[k], Peak(values, k))
  }

  /** A point from `left` on, or the last one at or before it. */
  predicate InView(times: seq<int>, left: int, k: nat)
    requires k < |times|
  {
    times[k] >= left || k + 1 == |times| || times[k + 1] > left
  }

  /** The deepest fall in view among the first `n`. */
  function DeepestInView(times: seq<int>, values: seq<real>, left: int, n: nat): Option<real>
    requires n <= |times| == |values| && PositiveOn(values, 0, |values|)
  {
    if n == 0 then None
    else
      var rest := DeepestInView(times, values, left, n - 1);
      if InView(times, left, n - 1) && (rest == None || Fall(values, n - 1) > rest.value) then Some(Fall(values, n - 1))
      else rest
  }

  ghost predicate IsDeepestInView(times: seq<int>, values: seq<real>, left: int, n: nat, dd: Option<real>)
    requires n <= |times| == |values| && PositiveOn(values, 0, |values|)
  {
    && (forall k :: 0 <= k < n && InView(times, left, k) ==> dd.Some? && Fall(values, k) <= dd.value)
    && (dd.Some? ==> exists k :: 0 <= k < n && InView(times, left, k) && Fall(values, k) == dd.value)
  }

  lemma {:induction false} DeepestInViewIsDeepest(times: seq<int>, values: seq<real>, left: int, n: nat)
    requires n <= |times| == |values| && PositiveOn(values, 0, |values|)
    ensures IsDeepestInView(times, values, left, n, DeepestInView(times, values, left, n))
    ensures forall dd :: IsDeepestInView(times, values, left, n, dd) ==> dd == DeepestInView(times, values, left, n)
  {
    if n > 0 {
      DeepestInViewIsDeepest(times, values, left, n - 1);
    }
  }

  /** A fall of at least 23% in view, with some record at or before it. */
  predicate Severe(times: seq<int>, values: seq<real>, left: int)
    requires |times| == |values| && PositiveOn(values, 0, |values|)
  {
    exists k :: 0 <= k < |times| && InView(times, left, k) && Fall(values, k) >= 23.0 && Records(values, k + 1) != []
  }

  // ----- The facts

  datatype Event = Event(time: int, value: real, index: int)

  datatype Stage = Stage(count: nat, first: Option<Event>, last: Option<Event>)

  datatype Reason = EmptySource | W28Unavailable | Quality(code: nat) | MissingPrefix
    | InvalidReportInterval | InvalidUtcTimestamp | InvalidSampleIndex | InvalidChronology | InvalidInterval
    | InvalidEquity | NonpositiveEquity | ParserMessage(text: int)

  datatype Facts =
    | NotEvaluated(reason: Reason, count: nat)
    | Ready(rawCount: nat, hwm28: Option<Mark>, hwm14: Option<Mark>, hwm7: Option<Mark>, hwm0: Option<Mark>,
            stages: Stages, dd14: Option<real>, dd7: Option<real>, maxDd: real,
            held: bool, close: real, strictAthCount: nat, severe: bool)

  function EventAt(points: seq<Point>, k: nat): Event
    requires k < |points|
  {
    Event(points[k].time, points[k].value, points[k].index)
  }

  /** Count, first and last record of a stage, over the first `n` points. */
  function StageOf(points: seq<Point>, a: int, b: int, n: nat): Stage
    requires n <= |points|
  {
    var hits := Hits(Times(points), Values(points), a, b, n);
    if hits == [] then Stage(0, None, None)
    else
      assert hits[0] in hits && hits[|hits| - 1] in hits;
      Stage(|hits|, Some(EventAt(points, hits[0])), Some(EventAt(points, hits[|hits| - 1])))
  }

  datatype Stages = Stages(from28: Stage, from14: Stage, from7: Stage)

  /** The stages (end-28, end-14], (end-14, end-7] and (end-7, end] over the first `n` points. */
  function StagesOf(points: seq<Point>, end: int, n: nat): Stages
    requires n <= |points|
  {
    Stages(StageOf(points, end - 28 * DAY, end - 14 * DAY, n), StageOf(points, end - 14 * DAY, end - 7 * DAY, n),
           StageOf(points, end - 7 * DAY, end, n))
  }

  ghost predicate Sound(points: seq<Point>) {
    && NonDecreasing(Times(points))
    && PositiveOn(Values(points), 0, |points|)
  }

  ghost predicate EndsBy(points: seq<Point>, end: int) {
    forall k :: 0 <= k < |points| ==> points[k].time <= end
  }

  function MarkAt(points: seq<Point>, at: int): Option<Mark> {
    Hwm(Times(points), Values(points), at, |points|)
  }

  function Above(close: real, mark: Option<Mark>): bool {
    mark.Some? && close > mark.value.value
  }

  ghost function ReadyFacts(points: seq<Point>, end: int): (facts: Facts)
    requires points != [] && Sound(points)
    ensures facts.Ready?
  {
    var times, values, n := Times(points), Values(points), |points|;
    var stages, previous := StagesOf(points, end, n), MarkAt(points, end - 7 * DAY);
    Ready(n,
          MarkAt(points, end - 28 * DAY), MarkAt(points, end - 14 * DAY), previous, MarkAt(points, end), stages,
          DeepestInView(times, values, end - 14 * DAY, n), DeepestInView(times, values, end - 7 * DAY, n),
          DeepestInView(times, values, times[0], n).value,
          stages.from7.count > 0 && Above(values[n - 1], previous), values[n - 1], |Records(values, n)|,
          Severe(times, values, end - 14 * DAY))
  }

  /** Whether the frozen quality calculation refuses a curve; only its disposition matters here. */
  type Oracle = (seq<Point>, int) -> Option<nat>

  ghost function FactsOf(points: seq<Point>, end: int, cached: bool, quality: Oracle): Facts
    requires Sound(points)
  {
    if points == [] then NotEvaluated(EmptySource, 0)
    else if points[0].time > end - 28 * DAY then NotEvaluated(W28Unavailable, |points|)
    else if !cached && quality(points, end).Some? then NotEvaluated(Quality(quality(points, end).value), |points|)
    else ReadyFacts(points, end)
  }

  // ----- Prefixes

  /** `parsed[:bisect_right(times, cutoff)]`. */
  function Prefix(points: seq<Point>, cutoff: int): (prefix: seq<Point>)
    ensures prefix <= points
  {
    points[..Before(Times(points), cutoff + 1)]
  }

  lemma PrefixIs(points: seq<Point>, cutoff: int)
    requires Sound(points)
    ensures var prefix := Prefix(points, cutoff); Sound(prefix) && EndsBy(prefix, cutoff)
    ensures forall k :: |Prefix(points, cutoff)| <= k < |points| ==> points[k].time > cutoff
    ensures Times(Prefix(points, cutoff)) == Times(points)[..|Prefix(points, cutoff)|]
    ensures Values(Prefix(points, cutoff)) == Values(points)[..|Prefix(points, cutoff)|]
  {
    BeforeSplits(Times(points), cutoff + 1);
    var times, values, prefix := Times(points), Values(points), Prefix(points, cutoff);
    var n := |prefix|;
    assert forall k :: n <= k < |points| ==> times[k] > cutoff && points[k].time == times[k];
    assert Times(prefix) == times[..n];
    assert Values(prefix) == values[..n];
    assert forall k :: 0 <= k < n ==> times[k] <= cutoff && prefix[k].time == times[k];
    assert forall k :: 0 <= k < n ==> values[k] > 0.0 && Values(prefix)[k] == values[k];
    assert forall a, b :: 0 <= a <= b < n ==> times[a] <= times[b];
  }
}
