/** The equity quality figures in terms of the points: which point counts, what the paths hold, and what the risk
    and efficiency figures say about them. */
module QualityMeaning {
  import opened Drawdown
  import opened EquityQuality
  import opened Sorting
  import opened Wrappers

  /** Earlier, or at the same time under an index that is not higher. */
  predicate NotAfter(p: Point, q: Point) {
    p.time < q.time || (p.time == q.time && p.index <= q.index)
  }

  /** By time and then index. */
  ghost predicate InOrder(s: seq<Point>) {
    forall a, b :: 0 <= a <= b < |s| ==> NotAfter(s[a], s[b])
  }

  lemma SortedByTime(points: seq<Point>)
    ensures forall p :: p in Sort(points, ByTime()) <==> p in points
    ensures multiset(Sort(points, ByTime())) == multiset(points)
    ensures InOrder(Sort(points, ByTime()))
  {
    SortIsSorted(points, ByTime());
    var s := Sort(points, ByTime());
    hide Sorting.Sort;
    forall a, b | 0 <= a <= b < |s| ensures NotAfter(s[a], s[b]) {
      assert AtMost(ByTime()(s[a]), ByTime()(s[b]));
    }
  }

  // ----- The point that counts at a moment

  lemma {:induction false} LastUpToIsLast(s: seq<Point>, when: int)
    requires InOrder(s)
    ensures LastUpTo(s, when) == None ==> forall p :: p in s ==> p.time > when
    ensures LastUpTo(s, when).Some? ==> LastUpTo(s, when).value in s && LastUpTo(s, when).value.time <= when
    ensures LastUpTo(s, when).Some? ==> forall p :: p in s && p.time <= when ==> NotAfter(p, LastUpTo(s, when).value)
  {
    if s != [] && s[|s| - 1].time > when {
      LastUpToIsLast(s[..|s| - 1], when);
    }
  }

  /** Not after the moment, and no point that is not after it comes later, by time or else by index. */
  ghost predicate Counts(points: seq<Point>, when: int, p: Point) {
    p.time <= when && forall q :: q in points && q.time <= when ==> NotAfter(q, p)
  }

  /** The equity at a moment is that of a point not after it, and of all these the one with the latest time and,
      at that time, the highest index; there is none only if all points are later. */
  lemma EquityAtMeans(points: seq<Point>, when: int)
    ensures var found := EquityAt(Deduplicated(Sort(points, ByTime())), when);
      && (found == None <==> forall p :: p in points ==> p.time > when)
      && (found.Some? ==> exists p :: p in points && found.value == p.equity && Counts(points, when, p))
  {
    var s := Sort(points, ByTime());
    SortedByTime(points);
    SortedIsChronological(points);
    LastUpToIsLast(s, when);
    LookupFindsLast(s, when);
    hide Sorting.Sort, LastUpTo, Deduplicated, EquityAt;
    var last := LastUpTo(s, when);
    if last.Some? {
      assert last.value in points && Counts(points, when, last.value) by {
        assert forall q :: q in points ==> q in s;
      }
    }
  }

  /** The deduplicated list ascends strictly in time; it holds, for every time of the points, a point that no other
      point of the time exceeds in index. */
  lemma DeduplicatedMeans(points: seq<Point>)
    ensures var kept := Deduplicated(Sort(points, ByTime()));
      && (forall a, b :: 0 <= a < b < |kept| ==> kept[a].time < kept[b].time)
      && (forall p :: p in kept ==> p in points && forall q :: q in points && q.time == p.time ==> q.index <= p.index)
      && (forall q :: q in points ==> exists p :: p in kept && p.time == q.time)
  {
    var s := Sort(points, ByTime());
    SortedByTime(points);
    hide Sorting.Sort;
    var kept := Deduplicated(s);
    KeptAscendInTime(s);
    hide *;
    forall p | p in kept ensures p in points && forall q :: q in points && q.time == p.time ==> q.index <= p.index {
      KeptIsLast(s, p);
      assert forall q :: q in points ==> q in s;
    }
    forall q | q in points ensures exists p :: p in kept && p.time == q.time {
      assert q in s;
      var p := KeptForTime(s, q);
    }
  }

  /** The last position of a run of equal times. */
  ghost predicate EndsRun(s: seq<Point>, k: nat) {
    k < |s| && (k + 1 == |s| || s[k + 1].time != s[k].time)
  }

  lemma {:induction false} KeptAre(s: seq<Point>)
    ensures forall k: nat :: k in Kept(s) <==> EndsRun(s, k)
  {
    if s != [] {
      var n := |s| - 1;
      var most := s[..n];
      KeptAre(most);
      KeptAscends(most);
      var rest, whole := Kept(most), Kept(s);
      assert whole == (if rest != [] && s[rest[|rest| - 1]].time == s[n].time then rest[..|rest| - 1] else rest) + [n];
      hide Kept;
      if rest != [] {
        assert rest == rest[..|rest| - 1] + [n - 1];
        assert forall a :: 0 <= a < |rest| - 1 ==> rest[a] < n - 1;
      }
      forall k: nat ensures k in whole <==> EndsRun(s, k) {
        assert k in rest <==> EndsRun(most, k);
      }
    }
  }

  lemma TimeAfterRun(s: seq<Point>, k: nat, j: nat)
    requires InOrder(s) && EndsRun(s, k) && k < j < |s|
    ensures s[k].time < s[j].time
  {
    assert NotAfter(s[k], s[k + 1]) && NotAfter(s[k + 1], s[j]);
  }

  lemma KeptAscendInTime(s: seq<Point>)
    requires InOrder(s)
    ensures forall a, b :: 0 <= a < b < |Deduplicated(s)| ==> Deduplicated(s)[a].time < Deduplicated(s)[b].time
  {
    KeptAre(s);
    KeptAscends(s);
    var kept, at := Deduplicated(s), Kept(s);
    assert forall a :: 0 <= a < |kept| ==> kept[a] == s[at[a]] && at[a] in at;
    hide Deduplicated, Kept, EndsRun, InOrder;
    forall a, b | 0 <= a < b < |kept| ensures kept[a].time < kept[b].time {
      TimeAfterRun(s, at[a], at[b]);
    }
  }

  lemma KeptIsLast(s: seq<Point>, p: Point)
    requires InOrder(s) && p in Deduplicated(s)
    ensures p in s && forall q :: q in s && q.time == p.time ==> q.index <= p.index
  {
    KeptAre(s);
    var a :| 0 <= a < |Deduplicated(s)| && Deduplicated(s)[a] == p;
    var k := Kept(s)[a];
    assert k in Kept(s) && p == s[k];
    hide Deduplicated, Kept, EndsRun;
    forall j: nat | k < j < |s| ensures p.time < s[j].time {
      TimeAfterRun(s, k, j);
    }
    forall j: nat | j <= k ensures NotAfter(s[j], p) {
    }
    forall q | q in s && q.time == p.time ensures q.index <= p.index {
      var j :| 0 <= j < |s| && s[j] == q;
    }
  }

  lemma KeptForTime(s: seq<Point>, q: Point) returns (p: Point)
    requires q in s
    ensures p in Deduplicated(s) && p.time == q.time
  {
    KeptAre(s);
    var j :| 0 <= j < |s| && s[j] == q;
    var k := LaterOfTime(s, j);
    assert EndsRun(s, k);
    var a :| 0 <= a < |Kept(s)| && Kept(s)[a] == k;
    p := Deduplicated(s)[a];
  }

  lemma {:induction false} LaterOfTime(s: seq<Point>, j: nat) returns (k: nat)
    requires j < |s|
    ensures j <= k < |s| && s[k].time == s[j].time && (k + 1 == |s| || s[k + 1].time != s[k].time)
    decreases |s| - j
  {
    if j + 1 < |s| && s[j + 1].time == s[j].time {
      k := LaterOfTime(s, j + 1);
    } else {
      k := j;
    }
  }

  // ----- The risk paths

  /** The points of the report interval, each as often as it was given, by time and then index. */
  lemma ReportMeans(points: seq<Point>, start: int, end: int)
    ensures var raw := InReport(points, start, end);
      && InOrder(raw)
      && (forall p :: multiset(raw)[p] == if start <= p.time <= end then multiset(points)[p] else 0)
  {
    SortedByTime(Where(points, Inside(start, end)));
    WhereCounts(points, Inside(start, end));
    hide Sorting.Sort, Sorting.Where;
  }

  lemma {:induction false} WhereCounts(points: seq<Point>, keep: Point -> bool)
    ensures forall p :: multiset(Where(points, keep))[p] == if keep(p) then multiset(points)[p] else 0
  {
    if points != [] {
      WhereCounts(points[..|points| - 1], keep);
      assert points == points[..|points| - 1] + [points[|points| - 1]];
    }
  }

  /** On the path the equities of the listed points follow the base, unless a report point stands at the start, and
      precede the terminal equity, unless one stands at the end. */
  lemma AnchoredMeans(raw: seq<Point>, listed: seq<Point>, start: int, end: int, base: real, terminal: real)
    ensures var path := Anchored(raw, listed, start, end, base, terminal);
      var lead := if exists p :: p in raw && p.time == start then 0 else 1;
      var tail := if exists p :: p in raw && p.time == end then 0 else 1;
      && |path| == lead + |listed| + tail
      && (lead == 1 ==> path[0] == base) && (tail == 1 ==> path[|path| - 1] == terminal)
      && (forall k :: 0 <= k < |listed| ==> path[lead + k] == listed[k].equity)
  {
    TimeIsThere(raw, start);
    TimeIsThere(raw, end);
    hide HasTime;
  }

  lemma TimeIsThere(raw: seq<Point>, when: int)
    ensures HasTime(raw, when) <==> exists p :: p in raw && p.time == when
  {
    if HasTime(raw, when) {
      var p := PointAt(raw, when);
    }
    if p :| p in raw && p.time == when {
      var k :| 0 <= k < |raw| && raw[k] == p;
    }
  }

  // ----- The figures

  /** `share` of the earlier value covers the loss down to the later one. */
  ghost predicate Covered(share: real, earlier: real, later: real) {
    earlier - later <= share * earlier
  }

  lemma LossMeans(value: real, peak: real, share: real)
    requires peak > 0.0
    ensures Loss(value, peak) <= share <==> Covered(share, peak, value)
  {
    var q := value / peak;
    assert q * peak == value;
    var room := share - (1.0 - q);
    assert room * peak == share * peak - peak + value;
    Sign(room, peak);
  }

  lemma Sign(x: real, w: real)
    requires w > 0.0
    ensures x * w >= 0.0 <==> x >= 0.0
  {
  }

  ghost predicate CoversAll(values: seq<real>, share: real) {
    forall i, j :: 0 <= i <= j < |values| ==> Covered(share, values[i], values[j])
  }

  /** On a positive path the peak is the largest value, and the drawdown is the least share that covers the loss from
      every value to every later one. */
  lemma RiskMeans(values: seq<real>)
    requires values != [] && forall k :: 0 <= k < |values| ==> values[k] > 0.0
    ensures var (peak, drawdown) := Risk(values, |values|);
      && (forall k :: 0 <= k < |values| ==> values[k] <= peak) && (exists k :: 0 <= k < |values| && values[k] == peak)
      && (forall share :: drawdown <= share <==> CoversAll(values, share))
  {
    var n := |values|;
    RiskPeakIsPeak(values, n);
    PeakIsMaximum(values, n - 1);
    var a, b := DrawdownIsALoss(values, n);
    var drawdown := Risk(values, n).1;
    hide Risk, Loss, Peak, Covered;
    forall share ensures drawdown <= share <==> CoversAll(values, share) {
      LossMeans(values[b], values[a], share);
      if drawdown <= share {
        forall i, j | 0 <= i <= j < n ensures Covered(share, values[i], values[j]) {
          LossWithinDrawdown(values, n, i, j);
          LossMeans(values[j], values[i], share);
        }
      }
    }
  }

  /** The distance between two values. */
  ghost predicate IsStep(length: real, x: real, y: real) {
    if x <= y then length == y - x else length == x - y
  }

  /** With `lengths` the distances covered up to each value, the efficiency is the last value's share of the whole
      length, and zero for a path that never moves. */
  lemma EfficiencyMeans(logs: seq<real>, lengths: seq<real>)
    requires logs != [] && |lengths| == |logs| && lengths[0] == 0.0
    requires forall k :: 0 < k < |logs| ==> IsStep(lengths[k] - lengths[k - 1], logs[k - 1], logs[k])
    ensures var length := lengths[|logs| - 1];
      if length == 0.0 then Efficiency(logs) == 0.0 else Efficiency(logs) * length == logs[|logs| - 1]
  {
    LengthsAre(logs, lengths, |logs|);
    var length, last := lengths[|logs| - 1], logs[|logs| - 1];
    if length != 0.0 {
      assert (last / length) * length == last;
    }
  }

  lemma {:induction false} LengthsAre(logs: seq<real>, lengths: seq<real>, n: nat)
    requires 0 < n <= |logs| == |lengths| && lengths[0] == 0.0
    requires forall k :: 0 < k < |logs| ==> IsStep(lengths[k] - lengths[k - 1], logs[k - 1], logs[k])
    ensures PathLength(logs, n) == lengths[n - 1]
  {
    if n > 1 {
      LengthsAre(logs, lengths, n - 1);
      assert IsStep(lengths[n - 1] - lengths[n - 2], logs[n - 2], logs[n - 1]);
    }
  }

  /** The logarithm is taken of the number that gives the value when it multiplies the base. */
  lemma LogsMean(values: seq<real>, base: real, ln: real -> real, k: nat, ratio: real)
    requires base > 0.0 && k < |values| && ratio * base == values[k]
    ensures Logs(values, base, ln)[k] == ln(ratio)
  {
    assert (values[k] / base) * base == values[k];
    SameFactor(values[k] / base, ratio, base);
  }

  lemma SameFactor(x: real, y: real, w: real)
    requires w > 0.0 && x * w == y * w
    ensures x == y
  {
    assert (x - y) * w == 0.0;
  }

  /** The least share that covers the loss from the largest value of the path to the terminal equity. */
  ghost predicate IsGap(gap: real, path: seq<real>, terminal: real) {
    exists k :: 0 <= k < |path| && (forall j :: 0 <= j < |path| ==> path[j] <= path[k])
      && forall share :: gap <= share <==> Covered(share, path[k], terminal)
  }

  ghost predicate IsDrawdown(drawdown: real, path: seq<real>) {
    forall share :: drawdown <= share <==> CoversAll(path, share)
  }

  /** The risk figures of the metric: those of the path over all report points, and what they exceed those of the
      path with one point per time by. */
  lemma MetricMeans(m: Metric, points: seq<Point>, start: int, end: int, base: Point, terminal: Point)
    requires AllPositive(points) && start <= end && IsMetric(m, points, start, end)
    requires base in points && Counts(points, start, base) && terminal in points && Counts(points, end, terminal)
    requires forall p, q :: p in points && q in points && p.time == q.time && p.index == q.index ==> p == q
    ensures var raw := InReport(points, start, end);
      var whole := Anchored(raw, raw, start, end, base.equity, terminal.equity);
      var thin := Anchored(raw, Deduplicated(raw), start, end, base.equity, terminal.equity);
      && IsDrawdown(m.drawdown, whole) && IsDrawdown(m.drawdown - m.duplicateDdDelta, thin)
      && IsGap(m.peakGap, whole, terminal.equity)
      && IsGap(m.peakGap - m.duplicatePeakGapDelta, thin, terminal.equity)
  {
    var s, raw := Sort(points, ByTime()), InReport(points, start, end);
    SortedByTime(points);
    hide *;
    OnlyOneCounts(points, s, start, base);
    OnlyOneCounts(points, s, end, terminal);
    FiguresMean(m, points, start, end, base, terminal);
  }

  lemma OnlyOneCounts(points: seq<Point>, s: seq<Point>, when: int, p: Point)
    requires p in points && Counts(points, when, p) && InOrder(s) && forall q :: q in s <==> q in points
    requires forall p, q :: p in points && q in points && p.time == q.time && p.index == q.index ==> p == q
    ensures LastUpTo(s, when) == Some(p)
  {
    LastUpToIsLast(s, when);
    hide LastUpTo, InOrder;
    var last := LastUpTo(s, when);
    assert p in s && p.time <= when;
    assert NotAfter(p, last.value) && NotAfter(last.value, p);
  }

  lemma FiguresMean(m: Metric, points: seq<Point>, start: int, end: int, base: Point, terminal: Point)
    requires AllPositive(points) && start <= end && IsMetric(m, points, start, end)
    requires LastUpTo(Sort(points, ByTime()), start) == Some(base)
    requires LastUpTo(Sort(points, ByTime()), end) == Some(terminal)
    ensures var raw := InReport(points, start, end);
      var whole := Anchored(raw, raw, start, end, base.equity, terminal.equity);
      var thin := Anchored(raw, Deduplicated(raw), start, end, base.equity, terminal.equity);
      && IsDrawdown(m.drawdown, whole) && IsDrawdown(m.drawdown - m.duplicateDdDelta, thin)
      && IsGap(m.peakGap, whole, terminal.equity)
      && IsGap(m.peakGap - m.duplicatePeakGapDelta, thin, terminal.equity)
  {
    var raw := InReport(points, start, end);
    var whole := Anchored(raw, raw, start, end, base.equity, terminal.equity);
    var thin := Anchored(raw, Deduplicated(raw), start, end, base.equity, terminal.equity);
    hide *;
    MetricOpens(m, points, start, end, base, terminal);
    RawDominates(points, start, end, base, terminal);
    ReportIsPositive(points, start, end, base, terminal);
    AnchoredPositive(raw, raw, start, end, base.equity, terminal.equity);
    AnchoredPositive(raw, Deduplicated(raw), start, end, base.equity, terminal.equity);
    RiskFigures(whole, terminal.equity);
    RiskFigures(thin, terminal.equity);
  }

  lemma MetricOpens(m: Metric, points: seq<Point>, start: int, end: int, base: Point, terminal: Point)
    requires IsMetric(m, points, start, end)
    requires LastUpTo(Sort(points, ByTime()), start) == Some(base)
    requires LastUpTo(Sort(points, ByTime()), end) == Some(terminal)
    ensures var raw := InReport(points, start, end);
      var whole := Anchored(raw, raw, start, end, base.equity, terminal.equity);
      var thin := Anchored(raw, Deduplicated(raw), start, end, base.equity, terminal.equity);
      && Risk(whole, |whole|).0 > 0.0 && Risk(thin, |thin|).0 > 0.0
      && m.drawdown == Risk(whole, |whole|).1 && m.drawdown - m.duplicateDdDelta == Risk(thin, |thin|).1
      && m.peakGap == Loss(terminal.equity, Risk(whole, |whole|).0)
      && m.peakGap - m.duplicatePeakGapDelta == Loss(terminal.equity, Risk(thin, |thin|).0)
  {
    hide InReport, Anchored, Deduplicated, Risk, Loss, Sorting.Sort, LastUpTo;
  }

  lemma RiskFigures(path: seq<real>, terminal: real)
    requires path != [] && PositiveOn(path, 0, |path|) && Risk(path, |path|).0 > 0.0
    ensures IsDrawdown(Risk(path, |path|).1, path) && IsGap(Loss(terminal, Risk(path, |path|).0), path, terminal)
  {
    RiskMeans(path);
    hide Risk, Loss, Covered, CoversAll;
    var peak := Risk(path, |path|).0;
    var k :| 0 <= k < |path| && path[k] == peak;
    forall share ensures Loss(terminal, peak) <= share <==> Covered(share, path[k], terminal) {
      LossMeans(terminal, peak, share);
    }
  }
}
