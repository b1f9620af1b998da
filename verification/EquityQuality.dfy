/** The equity quality metric: last-per-timestamp lookup, the sampling grid, and the risk and
    efficiency figures on the raw and on the deduplicated path. */
module EquityQuality {
  import opened Drawdown
  import opened Sorting
  import opened StepCurves
  import opened Wrappers

  datatype Point = Point(index: int, time: int, equity: real)

  function ByTime(): Point -> (int, int) { (p: Point) => (p.time, p.index) }

  // ----- The last point per timestamp

  function Stamps(points: seq<Point>): (times: seq<int>)
    ensures |times| == |points|
  {
    seq(|points|, k requires 0 <= k < |points| => points[k].time)
  }

  /** Positions of the last of each run of equal timestamps. */
  function Kept(s: seq<Point>): (kept: seq<nat>)
    ensures |kept| <= |s| && (s != [] ==> kept != [] && kept[|kept| - 1] == |s| - 1)
    ensures forall k :: 0 <= k < |kept| ==> kept[k] < |s|
  {
    if s == [] then []
    else
      var rest := Kept(s[..|s| - 1]);
      if rest != [] && s[rest[|rest| - 1]].time == s[|s| - 1].time then rest[..|rest| - 1] + [|s| - 1]
      else rest + [|s| - 1]
  }

  function Deduplicated(s: seq<Point>): (effective: seq<Point>)
    ensures |effective| == |Kept(s)|
  {
    seq(|Kept(s)|, k requires 0 <= k < |Kept(s)| => s[Kept(s)[k]])
  }

  /** `_effective`: sort by time and index, then overwrite the last entry while the timestamp repeats. */
  method Effective(points: seq<Point>) returns (times: seq<int>, effective: seq<Point>)
    ensures effective == Deduplicated(Sort(points, ByTime())) && times == Stamps(effective)
  {
    var ordered := Sort(points, ByTime());
    times, effective := [], [];
    assert Deduplicated(ordered[..0]) == [] && Stamps([]) == [];
    hide *;
    for k := 0 to |ordered|
      invariant effective == Deduplicated(ordered[..k]) && times == Stamps(effective)
    {
      ghost var before := effective;
      TimesStep(effective, ordered[k]);
      if times != [] && ordered[k].time == times[|times| - 1] {
        effective := effective[..|effective| - 1] + [ordered[k]];
      } else {
        times := times + [ordered[k].time];
        effective := effective + [ordered[k]];
      }
      DeduplicatedStep(ordered, k, before, effective);
    }
    assert ordered[..|ordered|] == ordered;
  }

  lemma TimesStep(s: seq<Point>, p: Point)
    ensures Stamps(s + [p]) == Stamps(s) + [p.time]
    ensures s != [] ==> Stamps(s)[|s| - 1] == s[|s| - 1].time
    ensures s != [] && s[|s| - 1].time == p.time ==> Stamps(s[..|s| - 1] + [p]) == Stamps(s)
  {
  }

  lemma DeduplicatedStep(s: seq<Point>, k: nat, before: seq<Point>, after: seq<Point>)
    requires k < |s| && before == Deduplicated(s[..k])
    requires after == if before != [] && before[|before| - 1].time == s[k].time then before[..|before| - 1] + [s[k]]
      else before + [s[k]]
    ensures after == Deduplicated(s[..k + 1])
  {
    assert s[..k + 1][..k] == s[..k];
    var kept := Kept(s[..k]);
    assert kept != [] ==> before[|before| - 1] == s[kept[|kept| - 1]];
  }

  lemma {:induction false} KeptAscends(s: seq<Point>)
    ensures forall a, b :: 0 <= a < b < |Kept(s)| ==> Kept(s)[a] < Kept(s)[b]
  {
    if s != [] {
      KeptAscends(s[..|s| - 1]);
    }
  }

  /** The last point at or before a moment. */
  function LastUpTo(s: seq<Point>, when: int): Option<Point> {
    if s == [] then None
    else if s[|s| - 1].time <= when then Some(s[|s| - 1])
    else LastUpTo(s[..|s| - 1], when)
  }

  ghost predicate TimeOrdered(s: seq<Point>) {
    forall a, b :: 0 <= a <= b < |s| ==> s[a].time <= s[b].time
  }

  lemma {:induction false} LastUpToIsLatest(s: seq<Point>, when: int)
    requires TimeOrdered(s)
    ensures LastUpTo(s, when) == None <==> forall k :: 0 <= k < |s| ==> s[k].time > when
    ensures LastUpTo(s, when).Some? ==> LastUpTo(s, when).value in s && LastUpTo(s, when).value.time <= when
    ensures LastUpTo(s, when).Some? ==> forall k :: 0 <= k < |s| && s[k].time <= when ==>
      s[k].time <= LastUpTo(s, when).value.time
  {
    if s != [] && s[|s| - 1].time > when {
      LastUpToIsLatest(s[..|s| - 1], when);
    }
  }

  /** `_equity_at`: `effective[bisect_right(times, when) - 1]`. */
  function EquityAt(effective: seq<Point>, when: int): Option<real> {
    var n := Before(Stamps(effective), when + 1);
    if n == 0 then None else Some(effective[n - 1].equity)
  }

  /** The lookup on the deduplicated list finds the equity of the very last raw point up to the moment. */
  lemma {:induction false} LookupFindsLast(s: seq<Point>, when: int)
    requires TimeOrdered(s)
    ensures var last := LastUpTo(s, when);
      EquityAt(Deduplicated(s), when) == if last == None then None else Some(last.value.equity)
  {
    if s != [] {
      var most, last := s[..|s| - 1], s[|s| - 1];
      LookupFindsLast(most, when);
      assert s[..|s| - 1 + 1] == s;
      var before := Deduplicated(most);
      var after := if before != [] && before[|before| - 1].time == last.time then before[..|before| - 1] + [last]
        else before + [last];
      DeduplicatedStep(s, |s| - 1, before, after);
      var found, earlier := LastUpTo(s, when), LastUpTo(most, when);
      assert found == if last.time <= when then Some(last) else earlier;
      hide *;
      LookupStep(before, after, last, when);
    }
  }

  lemma LookupStep(before: seq<Point>, after: seq<Point>, last: Point, when: int)
    requires after == if before != [] && before[|before| - 1].time == last.time then before[..|before| - 1] + [last]
      else before + [last]
    ensures EquityAt(after, when) == if last.time <= when then Some(last.equity) else EquityAt(before, when)
  {
    hide *;
    if last.time <= when {
      LookupAtLast(after, last, when);
    } else if after == before + [last] {
      LookupBefore(before, last, when);
    } else {
      var rest, replaced := before[..|before| - 1], before[|before| - 1];
      LookupBefore(rest, replaced, when);
      LookupBefore(rest, last, when);
      assert before == rest + [replaced];
    }
  }

  lemma LookupAtLast(effective: seq<Point>, last: Point, when: int)
    requires effective != [] && effective[|effective| - 1] == last && last.time <= when
    ensures EquityAt(effective, when) == Some(last.equity)
  {
    assert Stamps(effective)[|effective| - 1] == last.time;
  }

  lemma LookupBefore(effective: seq<Point>, later: Point, when: int)
    requires later.time > when
    ensures EquityAt(effective + [later], when) == EquityAt(effective, when)
  {
    var more := effective + [later];
    assert Stamps(more)[..|more| - 1] == Stamps(effective);
    assert Stamps(more)[|more| - 1] == later.time;
    assert Before(Stamps(more), when + 1) == Before(Stamps(effective), when + 1);
  }

  // ----- The grid

  /** From start in equal steps, the last one possibly shorter, to the end. */
  ghost predicate IsGrid(nodes: seq<int>, start: int, end: int, step: int) {
    && nodes != [] && nodes[|nodes| - 1] == end && (start <= end ==> nodes[0] == start)
    && (forall k :: 0 < k < |nodes| ==> nodes[k - 1] < nodes[k] <= nodes[k - 1] + step)
    && (forall k :: 0 < k < |nodes| - 1 ==> nodes[k] == nodes[k - 1] + step)
  }

  /** `_grid`. */
  method Grid(start: int, end: int, step: int) returns (nodes: seq<int>)
    requires step > 0
    ensures IsGrid(nodes, start, end, step)
  {
    nodes := [];
    var node := start;
    while node < end
      invariant nodes == [] ==> node == start
      invariant nodes != [] ==> nodes[0] == start && node == nodes[|nodes| - 1] + step && nodes[|nodes| - 1] < end
      invariant forall k :: 0 < k < |nodes| ==> nodes[k] == nodes[k - 1] + step
      decreases end - node
    {
      nodes := nodes + [node];
      node := node + step;
    }
    if nodes == [] || nodes[|nodes| - 1] != end {
      nodes := nodes + [end];
    }
  }

  // ----- Risk on a path

  /** How far a value lies below a peak, as a share of the peak. */
  function Loss(value: real, peak: real): real
    requires peak > 0.0
  {
    1.0 - value / peak
  }

  lemma LossLaws(value: real, p: real, q: real)
    requires value > 0.0 && 0.0 < p <= q
    ensures Loss(value, p) <= Loss(value, q) < 1.0 && Loss(value, value) == 0.0
    ensures value <= p ==> 0.0 <= Loss(value, p)
  {
    Reciprocals(value, p, q);
    assert value / value == 1.0;
    if value <= p {
      Reciprocals(value, value, p);
    }
  }

  lemma Reciprocals(v: real, p: real, q: real)
    requires v > 0.0 && 0.0 < p <= q
    ensures v / p >= v / q > 0.0
  {
    assert (v / p) * p == v && (v / q) * q == v;
    assert (v / q) * p <= (v / q) * q;
  }

  /** The loop of the risk figures after `n` values: the peak from zero, and the deepest share. */
  function Risk(values: seq<real>, n: nat): (real, real)
    requires n <= |values|
  {
    if n == 0 then (0.0, 0.0)
    else
      var (peak, drawdown) := Risk(values, n - 1);
      var higher := Max(peak, values[n - 1]);
      (higher, if higher > 0.0 then Max(drawdown, Loss(values[n - 1], higher)) else drawdown)
  }

  method RiskOf(values: seq<real>) returns (peak: real, drawdown: real)
    ensures (peak, drawdown) == Risk(values, |values|)
  {
    peak, drawdown := 0.0, 0.0;
    for k := 0 to |values|
      invariant (peak, drawdown) == Risk(values, k)
    {
      peak := Max(peak, values[k]);
      if peak > 0.0 {
        drawdown := Max(drawdown, Loss(values[k], peak));
      }
    }
  }

  lemma {:induction false} RiskPeakIsPeak(values: seq<real>, n: nat)
    requires 0 < n <= |values| && PositiveOn(values, 0, |values|)
    ensures Risk(values, n).0 == Peak(values, n - 1) > 0.0
    ensures Risk(values, n).1 == Max(Risk(values, n - 1).1, Loss(values[n - 1], Peak(values, n - 1)))
  {
    PeakPositive(values, n - 1);
    if n > 1 {
      RiskPeakIsPeak(values, n - 1);
    } else {
      assert Risk(values, 0) == (0.0, 0.0);
    }
  }

  /** On a positive path no loss from a value to a later one exceeds the drawdown. */
  lemma {:induction false} LossWithinDrawdown(values: seq<real>, n: nat, i: nat, j: nat)
    requires i <= j < n <= |values| && PositiveOn(values, 0, |values|)
    ensures 0.0 <= Risk(values, n).1
    ensures Loss(values[j], values[i]) <= Risk(values, n).1
  {
    RiskPeakIsPeak(values, n);
    assert Risk(values, 0) == (0.0, 0.0) && values[i] > 0.0 && values[j] > 0.0;
    PeakIsMaximum(values, n - 1);
    LossLaws(values[n - 1], values[i], Peak(values, n - 1));
    LossLaws(values[n - 1], Peak(values, n - 1), Peak(values, n - 1));
    hide Loss, Risk, Peak, PositiveOn;
    if j < n - 1 {
      LossWithinDrawdown(values, n - 1, i, j);
    } else if n > 1 {
      LossWithinDrawdown(values, n - 1, 0, 0);
    }
  }

  /** And some loss is the drawdown, so it is below 1. */
  lemma {:induction false} DrawdownIsALoss(values: seq<real>, n: nat) returns (i: nat, j: nat)
    requires 0 < n <= |values| && PositiveOn(values, 0, |values|)
    ensures i <= j < n && Loss(values[j], values[i]) == Risk(values, n).1 < 1.0
  {
    RiskPeakIsPeak(values, n);
    PeakIsMaximum(values, n - 1);
    var top :| 0 <= top <= n - 1 && values[top] == Peak(values, n - 1);
    assert Risk(values, 0) == (0.0, 0.0) && values[n - 1] > 0.0;
    LossLaws(values[n - 1], values[top], values[top]);
    hide Loss, Risk, Peak, PositiveOn;
    i, j := top, n - 1;
    if n > 1 {
      var a, b := DrawdownIsALoss(values, n - 1);
      if Risk(values, n - 1).1 >= Loss(values[j], values[i]) {
        i, j := a, b;
      }
    }
  }

  /** Dropping values from a positive path never deepens the drawdown nor raises the peak. */
  lemma ThinnedIsNoDeeper(raw: seq<real>, thin: seq<real>, at: seq<nat>)
    requires raw != [] && thin != [] && PositiveOn(raw, 0, |raw|) && PositiveOn(thin, 0, |thin|) && |at| == |thin|
    requires forall k :: 0 <= k < |thin| ==> at[k] < |raw| && thin[k] == raw[at[k]]
    requires forall j, k :: 0 <= j <= k < |thin| ==> at[j] <= at[k]
    ensures Risk(thin, |thin|).0 <= Risk(raw, |raw|).0 && Risk(thin, |thin|).1 <= Risk(raw, |raw|).1
  {
    RiskPeakIsPeak(raw, |raw|);
    RiskPeakIsPeak(thin, |thin|);
    PeakIsMaximum(thin, |thin| - 1);
    PeakIsMaximum(raw, |raw| - 1);
    hide *;
    var i, j := DrawdownIsALoss(thin, |thin|);
    LossWithinDrawdown(raw, |raw|, at[i], at[j]);
    var top :| 0 <= top <= |thin| - 1 && thin[top] == Peak(thin, |thin| - 1);
    assert raw[at[top]] <= Peak(raw, |raw| - 1);
  }

  // ----- Efficiency

  function Abs(x: real): real {
    if x < 0.0 then -x else x
  }

  /** The summed absolute steps of the first `n` values. */
  function PathLength(logs: seq<real>, n: nat): real
    requires n <= |logs|
  {
    if n <= 1 then 0.0 else PathLength(logs, n - 1) + Abs(logs[n - 1] - logs[n - 2])
  }

  lemma {:induction false} PathCoversSteps(logs: seq<real>, n: nat, i: nat)
    requires i < n <= |logs|
    ensures Abs(logs[n - 1] - logs[i]) <= PathLength(logs, n) && PathLength(logs, n) >= 0.0
  {
    if i < n - 1 {
      PathCoversSteps(logs, n - 1, i);
    } else if n > 1 {
      PathCoversSteps(logs, n - 1, n - 2);
    }
  }

  function Efficiency(logs: seq<real>): real
    requires logs != []
  {
    var path := PathLength(logs, |logs|);
    if path == 0.0 then 0.0 else logs[|logs| - 1] / path
  }

  /** Whenever the path passes through zero, the efficiency ratio lies in [-1, 1]. */
  lemma EfficiencyIsARatio(logs: seq<real>, i: nat)
    requires i < |logs| && logs[i] == 0.0
    ensures -1.0 <= Efficiency(logs) <= 1.0
  {
    PathCoversSteps(logs, |logs|, i);
    var path, last := PathLength(logs, |logs|), logs[|logs| - 1];
    if path != 0.0 {
      Ratio(last, path);
    }
  }

  lemma Ratio(x: real, p: real)
    requires p > 0.0 && -p <= x <= p
    ensures -1.0 <= x / p <= 1.0
  {
    assert (x / p) * p == x;
  }

  // ----- The risk paths

  function Inside(start: int, end: int): Point -> bool { (p: Point) => start <= p.time <= end }

  /** The observations of the report interval by time and index. */
  function InReport(points: seq<Point>, start: int, end: int): seq<Point> {
    Sort(Where(points, Inside(start, end)), ByTime())
  }

  predicate HasTime(points: seq<Point>, when: int) {
    exists k :: 0 <= k < |points| && points[k].time == when
  }

  function Equities(points: seq<Point>): (values: seq<real>)
    ensures |values| == |points|
  {
    seq(|points|, k requires 0 <= k < |points| => points[k].equity)
  }

  /** A path over `listed`, with the anchors of the interval where no raw point stands there. */
  function Anchored(raw: seq<Point>, listed: seq<Point>, start: int, end: int, base: real, terminal: real): seq<real> {
    (if HasTime(raw, start) then [] else [base]) + Equities(listed) + if HasTime(raw, end) then [] else [terminal]
  }

  ghost predicate AllPositive(points: seq<Point>) {
    forall k :: 0 <= k < |points| ==> points[k].equity > 0.0
  }

  lemma SortedIsChronological(points: seq<Point>)
    ensures TimeOrdered(Sort(points, ByTime())) && forall p :: p in Sort(points, ByTime()) <==> p in points
  {
    SortIsSorted(points, ByTime());
    var s := Sort(points, ByTime());
    forall a, b | 0 <= a <= b < |s| ensures s[a].time <= s[b].time {
      assert AtMost(ByTime()(s[a]), ByTime()(s[b]));
    }
  }

  /** The last point up to the end, once inside the report, is the last report point. */
  lemma {:induction false} LastInside(s: seq<Point>, start: int, end: int)
    requires LastUpTo(s, end).Some? && LastUpTo(s, end).value.time >= start
    ensures var raw := Where(s, Inside(start, end)); raw != [] && raw[|raw| - 1] == LastUpTo(s, end).value
  {
    if s[|s| - 1].time > end {
      LastInside(s[..|s| - 1], start, end);
    }
  }

  lemma ReportIsFiltered(points: seq<Point>, start: int, end: int)
    ensures InReport(points, start, end) == Where(Sort(points, ByTime()), Inside(start, end))
  {
    WhereSort(points, ByTime(), Inside(start, end));
  }

  lemma ReportMembers(points: seq<Point>, start: int, end: int)
    ensures forall p :: p in InReport(points, start, end) <==> p in points && start <= p.time <= end
  {
    ReportIsFiltered(points, start, end);
    SortedIsChronological(points);
    forall p | p in points && start <= p.time <= end ensures p in InReport(points, start, end) {
      WhereHas(Sort(points, ByTime()), Inside(start, end), p);
    }
  }

  /** A report point at the end is the terminal one, and comes last; one at the start includes the base. */
  lemma AnchorsAreReportPoints(points: seq<Point>, start: int, end: int, base: Point, terminal: Point)
    requires start <= end
    requires LastUpTo(Sort(points, ByTime()), start) == Some(base)
    requires LastUpTo(Sort(points, ByTime()), end) == Some(terminal)
    ensures var raw := InReport(points, start, end); HasTime(raw, end) ==> raw != [] && raw[|raw| - 1] == terminal
    ensures var raw := InReport(points, start, end); HasTime(raw, start) ==> base in raw
  {
    TerminalIsLast(points, start, end, terminal);
    BaseIsInside(points, start, end, base);
  }

  lemma TerminalIsLast(points: seq<Point>, start: int, end: int, terminal: Point)
    requires start <= end && LastUpTo(Sort(points, ByTime()), end) == Some(terminal)
    ensures var raw := InReport(points, start, end); HasTime(raw, end) ==> raw != [] && raw[|raw| - 1] == terminal
  {
    hide *;
    if HasTime(InReport(points, start, end), end) {
      LatestHasTime(points, start, end, end, terminal);
      LastInside(Sort(points, ByTime()), start, end);
      ReportIsFiltered(points, start, end);
    }
  }

  lemma BaseIsInside(points: seq<Point>, start: int, end: int, base: Point)
    requires start <= end && LastUpTo(Sort(points, ByTime()), start) == Some(base)
    ensures var raw := InReport(points, start, end); HasTime(raw, start) ==> base in raw
  {
    hide *;
    if HasTime(InReport(points, start, end), start) {
      LatestHasTime(points, start, end, start, base);
      ReportMembers(points, start, end);
    }
  }

  /** If the report has a point at a moment, the latest point up to it stands at that moment. */
  lemma LatestHasTime(points: seq<Point>, start: int, end: int, when: int, latest: Point)
    requires LastUpTo(Sort(points, ByTime()), when) == Some(latest) && HasTime(InReport(points, start, end), when)
    ensures latest.time == when && latest in points
  {
    var p := PointAt(InReport(points, start, end), when);
    var s := Sort(points, ByTime());
    hide *;
    ReportMembers(points, start, end);
    SortedIsChronological(points);
    LastUpToIsLatest(s, when);
    LatestIs(s, latest, p, when);
  }

  lemma PointAt(points: seq<Point>, when: int) returns (p: Point)
    requires HasTime(points, when)
    ensures p in points && p.time == when
  {
    var k :| 0 <= k < |points| && points[k].time == when;
    p := points[k];
    assert points[k] in points;
  }

  lemma LatestIs(s: seq<Point>, latest: Point, p: Point, when: int)
    requires p in s && p.time == when && latest.time <= when
    requires forall k :: 0 <= k < |s| && s[k].time <= when ==> s[k].time <= latest.time
    ensures latest.time == when
  {
    var k :| 0 <= k < |s| && s[k] == p;
  }

  /** Whatever is listed, the anchored path ends at the terminal equity. */
  lemma AnchoredEnds(raw: seq<Point>, listed: seq<Point>, start: int, end: int, base: real, terminal: real)
    requires HasTime(raw, end) ==> listed != [] && listed[|listed| - 1].equity == terminal
    ensures var path := Anchored(raw, listed, start, end, base, terminal); path != [] && path[|path| - 1] == terminal
  {
    hide HasTime;
    assert listed != [] ==> Equities(listed)[|listed| - 1] == listed[|listed| - 1].equity;
  }

  lemma AnchoredMeetsBase(raw: seq<Point>, start: int, end: int, base: Point, terminal: real) returns (i: nat)
    requires HasTime(raw, start) ==> base in raw
    ensures var path := Anchored(raw, raw, start, end, base.equity, terminal); i < |path| && path[i] == base.equity
  {
    hide HasTime;
    i := 0;
    if HasTime(raw, start) {
      i :| 0 <= i < |raw| && raw[i] == base;
      assert Equities(raw)[i] == base.equity;
    }
  }

  lemma AnchoredPositive(raw: seq<Point>, listed: seq<Point>, start: int, end: int, base: real, terminal: real)
    requires AllPositive(listed) && base > 0.0 && terminal > 0.0
    ensures var path := Anchored(raw, listed, start, end, base, terminal); PositiveOn(path, 0, |path|)
  {
    hide HasTime;
    assert forall k :: 0 <= k < |listed| ==> Equities(listed)[k] > 0.0;
  }

  /** Where each value of the deduplicated path stands on the raw path. */
  function Position(raw: seq<Point>, start: int, end: int, k: nat): nat {
    var shift := if HasTime(raw, start) then 0 else 1;
    if k < shift then k
    else if k < shift + |Kept(raw)| then shift + Kept(raw)[k - shift]
    else shift + |raw|
  }

  lemma ThinnedPath(raw: seq<Point>, start: int, end: int, base: real, terminal: real) returns (at: seq<nat>)
    ensures var whole := Anchored(raw, raw, start, end, base, terminal);
      var thin := Anchored(raw, Deduplicated(raw), start, end, base, terminal);
      && |at| == |thin|
      && (forall k :: 0 <= k < |thin| ==> at[k] < |whole| && thin[k] == whole[at[k]])
      && (forall j, k :: 0 <= j <= k < |thin| ==> at[j] <= at[k])
  {
    var whole, thin :=
      Anchored(raw, raw, start, end, base, terminal), Anchored(raw, Deduplicated(raw), start, end, base, terminal);
    at := seq(|thin|, k requires 0 <= k < |thin| => Position(raw, start, end, k));
    forall k | 0 <= k < |thin| ensures at[k] < |whole| && thin[k] == whole[at[k]] {
      PositionFits(raw, start, end, base, terminal, k);
    }
    forall j, k | 0 <= j <= k < |thin| ensures at[j] <= at[k] {
      PositionAscends(raw, start, end, j, k);
    }
  }

  lemma PositionFits(raw: seq<Point>, start: int, end: int, base: real, terminal: real, k: nat)
    requires k < |Anchored(raw, Deduplicated(raw), start, end, base, terminal)|
    ensures Position(raw, start, end, k) < |Anchored(raw, raw, start, end, base, terminal)|
    ensures Anchored(raw, Deduplicated(raw), start, end, base, terminal)[k] ==
      Anchored(raw, raw, start, end, base, terminal)[Position(raw, start, end, k)]
  {
    var shift, kept := if HasTime(raw, start) then 0 else 1, Kept(raw);
    if shift <= k < shift + |kept| {
      assert Equities(Deduplicated(raw))[k - shift] == Equities(raw)[kept[k - shift]];
    }
    hide HasTime, Kept, Deduplicated, Equities;
  }

  lemma PositionAscends(raw: seq<Point>, start: int, end: int, j: nat, k: nat)
    requires j <= k
    ensures Position(raw, start, end, j) <= Position(raw, start, end, k)
  {
    KeptAscends(raw);
    hide HasTime, Kept;
  }

  /** Raw against deduplicated: both figures are at least as large, and bounded. */
  lemma RawDominates(points: seq<Point>, start: int, end: int, base: Point, terminal: Point)
    requires start <= end && AllPositive(points)
    requires LastUpTo(Sort(points, ByTime()), start) == Some(base)
    requires LastUpTo(Sort(points, ByTime()), end) == Some(terminal)
    ensures var raw := InReport(points, start, end);
      var whole := Anchored(raw, raw, start, end, base.equity, terminal.equity);
      var thin := Anchored(raw, Deduplicated(raw), start, end, base.equity, terminal.equity);
      && whole != [] && thin != []
      && Risk(thin, |thin|).1 <= Risk(whole, |whole|).1 && 0.0 < Risk(thin, |thin|).0 <= Risk(whole, |whole|).0
      && 0.0 <= Loss(terminal.equity, Risk(thin, |thin|).0) <= Loss(terminal.equity, Risk(whole, |whole|).0)
        <= Risk(whole, |whole|).1 < 1.0
      && Loss(terminal.equity, Risk(thin, |thin|).0) <= Risk(thin, |thin|).1
  {
    var s, raw := Sort(points, ByTime()), InReport(points, start, end);
    var thinned := Deduplicated(raw);
    var whole, thin := Anchored(raw, raw, start, end, base.equity, terminal.equity), Anchored(raw, thinned, start, end,
        base.equity, terminal.equity);
    ReportIsPositive(points, start, end, base, terminal);
    AnchorsAreReportPoints(points, start, end, base, terminal);
    hide *;
    LastOfDeduplicated(raw);
    AnchoredEnds(raw, raw, start, end, base.equity, terminal.equity);
    AnchoredEnds(raw, thinned, start, end, base.equity, terminal.equity);
    AnchoredPositive(raw, raw, start, end, base.equity, terminal.equity);
    AnchoredPositive(raw, thinned, start, end, base.equity, terminal.equity);
    var at := ThinnedPath(raw, start, end, base.equity, terminal.equity);
    ThinnedIsNoDeeper(whole, thin, at);
    GapWithinDrawdown(whole);
    GapWithinDrawdown(thin);
    LossLaws(terminal.equity, Risk(thin, |thin|).0, Risk(whole, |whole|).0);
  }

  lemma ReportIsPositive(points: seq<Point>, start: int, end: int, base: Point, terminal: Point)
    requires AllPositive(points) && start <= end
    requires LastUpTo(Sort(points, ByTime()), start) == Some(base)
    requires LastUpTo(Sort(points, ByTime()), end) == Some(terminal)
    ensures var raw := InReport(points, start, end); AllPositive(raw) && AllPositive(Deduplicated(raw))
    ensures base.equity > 0.0 && terminal.equity > 0.0
  {
    hide *;
    SortedIsChronological(points);
    LastUpToIsLatest(Sort(points, ByTime()), start);
    LastUpToIsLatest(Sort(points, ByTime()), end);
    ReportMembers(points, start, end);
    PartIsPositive(points, InReport(points, start, end));
    PartIsPositive(points, [base]);
    PartIsPositive(points, [terminal]);
    OnlyPositive(base);
    OnlyPositive(terminal);
    DeduplicatedIsPositive(InReport(points, start, end));
  }

  lemma PartIsPositive(points: seq<Point>, part: seq<Point>)
    requires AllPositive(points) && forall p :: p in part ==> p in points
    ensures AllPositive(part)
  {
    assert forall k :: 0 <= k < |part| ==> part[k] in part;
  }

  lemma OnlyPositive(p: Point)
    requires AllPositive([p])
    ensures p.equity > 0.0
  {
    assert [p][0].equity > 0.0;
  }

  lemma DeduplicatedIsPositive(points: seq<Point>)
    requires AllPositive(points)
    ensures AllPositive(Deduplicated(points))
  {
  }

  lemma LastOfDeduplicated(s: seq<Point>)
    ensures s != [] ==> Deduplicated(s) != [] && Deduplicated(s)[|Deduplicated(s)| - 1] == s[|s| - 1]
  {
  }

  lemma GapWithinDrawdown(path: seq<real>)
    requires path != [] && PositiveOn(path, 0, |path|)
    ensures var (peak, drawdown) := Risk(path, |path|);
      peak > 0.0 && 0.0 <= Loss(path[|path| - 1], peak) <= drawdown < 1.0
  {
    var n := |path|;
    RiskPeakIsPeak(path, n);
    PeakIsMaximum(path, n - 1);
    var i, j := DrawdownIsALoss(path, n);
    assert path[n - 1] > 0.0;
    LossLaws(path[n - 1], Peak(path, n - 1), Peak(path, n - 1));
    hide Loss, Risk, Peak, PositiveOn;
  }

  // ----- The metric

  datatype Metric = Metric(er: real, drawdown: real, peakGap: real, gridPoints: nat, rawEr: real,
                           duplicateDdDelta: real, duplicatePeakGapDelta: real)

  /** Logarithms of a path relative to a base. */
  function Logs(values: seq<real>, base: real, ln: real -> real): (logs: seq<real>)
    requires base > 0.0
    ensures |logs| == |values|
  {
    seq(|values|, k requires 0 <= k < |values| => ln(values[k] / base))
  }

  lemma LogAtBase(values: seq<real>, base: real, ln: real -> real, i: nat)
    requires base > 0.0 && i < |values| && values[i] == base && ln(1.0) == 0.0
    ensures Logs(values, base, ln)[i] == 0.0
  {
    assert base / base == 1.0;
  }

  method PathLengthOf(logs: seq<real>) returns (length: real)
    ensures length == PathLength(logs, |logs|)
  {
    length := 0.0;
    if |logs| > 1 {
      for k := 1 to |logs|
        invariant length == PathLength(logs, k)
      {
        length := length + Abs(logs[k] - logs[k - 1]);
      }
    }
  }

  /** The end of a path against its length, and zero for a path that never moves. */
  method EfficiencyOf(logs: seq<real>) returns (ratio: real)
    requires logs != []
    ensures ratio == Efficiency(logs)
  {
    var length := PathLengthOf(logs);
    ratio := if length == 0.0 then 0.0 else logs[|logs| - 1] / length;
  }

  /** The equity at every node, when each exists and is positive. */
  method GridValues(effective: seq<Point>, nodes: seq<int>) returns (values: Option<seq<real>>)
    ensures values.Some? <==> forall k :: 0 <= k < |nodes| ==>
      EquityAt(effective, nodes[k]).Some? && EquityAt(effective, nodes[k]).value > 0.0
    ensures values.Some? ==> |values.value| == |nodes| && forall k :: 0 <= k < |nodes| ==>
      Some(values.value[k]) == EquityAt(effective, nodes[k])
  {
    var found: seq<real> := [];
    for k := 0 to |nodes|
      invariant |found| == k
      invariant forall j :: 0 <= j < k ==> Some(found[j]) == EquityAt(effective, nodes[j]) && found[j] > 0.0
    {
      var value := EquityAt(effective, nodes[k]);
      if value == None || value.value <= 0.0 {
        return None;
      }
      found := found + [value.value];
    }
    return Some(found);
  }

  lemma LookupIsPositive(points: seq<Point>, when: int)
    requires AllPositive(points)
    ensures var found := EquityAt(Deduplicated(Sort(points, ByTime())), when);
      && (found.Some? ==> found.value > 0.0)
      && (found.Some? <==> exists k :: 0 <= k < |points| && points[k].time <= when)
      && (found.Some? <==> LastUpTo(Sort(points, ByTime()), when).Some?)
      && (found.Some? ==> found.value == LastUpTo(Sort(points, ByTime()), when).value.equity)
  {
    var s := Sort(points, ByTime());
    SortedIsChronological(points);
    LookupFindsLast(s, when);
    LastUpToIsLatest(s, when);
    hide EquityAt, Deduplicated, TimeOrdered, Sorting.Sort, LastUpTo;
    var last := LastUpTo(s, when);
    if last.Some? {
      var k :| 0 <= k < |points| && points[k] == last.value;
    }
    if k :| 0 <= k < |points| && points[k].time <= when {
      assert points[k] in points && points[k] in s;
      var j :| 0 <= j < |s| && s[j] == points[k];
    }
  }

  /** `_metric`, trend and return figures left out.  It answers exactly when the interval has a point to
      start from, and its figures obey the bounds whatever the points and their timestamps are. */
  method ComputeMetric(points: seq<Point>, start: int, end: int, step: int, ln: real -> real)
    returns (metric: Option<Metric>, ghost nodes: seq<int>)
    requires AllPositive(points) && start < end && step > 0 && ln(1.0) == 0.0
    ensures metric.Some? <==> exists k :: 0 <= k < |points| && points[k].time <= start
    ensures metric.Some? ==> IsMetric(metric.value, points, start, end)
    ensures metric.Some? ==> IsGrid(nodes, start, end, step) && AreRatios(metric.value, points, start, end, nodes, ln)
    ensures metric.Some? ==> -1.0 <= metric.value.er <= 1.0 && -1.0 <= metric.value.rawEr <= 1.0
    ensures metric.Some? ==> 0.0 <= metric.value.peakGap <= metric.value.drawdown < 1.0
    ensures metric.Some? ==> metric.value.duplicateDdDelta >= 0.0 && metric.value.duplicatePeakGapDelta >= 0.0
    ensures metric.Some? ==> metric.value.gridPoints == |nodes| >= 2
  {
    nodes := [];
    var times, effective := Effective(points);
    LookupIsPositive(points, start);
    LookupIsPositive(points, end);
    ghost var s := Sort(points, ByTime());
    hide *;
    var base, terminal := EquityAt(effective, start), EquityAt(effective, end);
    if base.Some? {
      EarlierIsFound(points, start, end);
    }
    if base == None || terminal == None || base.value <= 0.0 || terminal.value <= 0.0 {
      return None, nodes;
    }
    var grid := Grid(start, end, step);
    nodes := grid;
    GridAscends(grid, start, end, step);
    NodesAreFound(points, start, grid);
    var values := GridValues(effective, grid);
    if values == None {
      return None, nodes;
    }
    var logs := Logs(values.value, base.value, ln);
    LogAtBase(values.value, base.value, ln, 0);
    EfficiencyIsARatio(logs, 0);
    var raw := InReport(points, start, end);
    var rawPath := Anchored(raw, raw, start, end, base.value, terminal.value);
    var thinPath := Anchored(raw, Deduplicated(raw), start, end, base.value, terminal.value);
    ghost var first, last := LastUpTo(s, start).value, LastUpTo(s, end).value;
    RawDominates(points, start, end, first, last);
    AnchorsAreReportPoints(points, start, end, first, last);
    ghost var i := AnchoredMeetsBase(raw, start, end, first, terminal.value);
    var rawLogs := Logs(rawPath, base.value, ln);
    LogAtBase(rawPath, base.value, ln, i);
    EfficiencyIsARatio(rawLogs, i);
    var peak, drawdown := RiskOf(rawPath);
    var thinPeak, thinDrawdown := RiskOf(thinPath);
    var gap, thinGap := Loss(terminal.value, peak), Loss(terminal.value, thinPeak);
    var er := EfficiencyOf(logs);
    var rawEr := EfficiencyOf(rawLogs);
    metric := Some(Metric(er, drawdown, gap, |grid|, rawEr, drawdown - thinDrawdown, gap - thinGap));
    MetricIs(metric.value, points, start, end, first, last);
    RatiosAre(metric.value, points, start, end, grid, ln, values.value, base.value, rawPath);
  }

  lemma GridAscends(nodes: seq<int>, start: int, end: int, step: int)
    requires IsGrid(nodes, start, end, step) && start < end
    ensures |nodes| >= 2 && nodes[0] == start && forall k :: 0 < k < |nodes| ==> nodes[k - 1] < nodes[k]
  {
  }

  /** The two efficiency ratios are those of the grid values and of the raw path, relative to the base. */
  ghost predicate AreRatios(m: Metric, points: seq<Point>, start: int, end: int, nodes: seq<int>, ln: real -> real) {
    var effective, raw := Deduplicated(Sort(points, ByTime())), InReport(points, start, end);
    && EquityAt(effective, start).Some? && EquityAt(effective, start).value > 0.0 && EquityAt(effective, end).Some?
    && (forall k :: 0 <= k < |nodes| ==> EquityAt(effective, nodes[k]).Some?) && nodes != []
    && var base, terminal := EquityAt(effective, start).value, EquityAt(effective, end).value;
      var values := seq(|nodes|,
          k requires 0 <= k < |nodes| && EquityAt(effective, nodes[k]).Some? => EquityAt(effective, nodes[k]).value);
      var path := Anchored(raw, raw, start, end, base, terminal);
      && path != [] && m.er == Efficiency(Logs(values, base, ln)) && m.rawEr == Efficiency(Logs(path, base, ln))
  }

  lemma RatiosAre(m: Metric, points: seq<Point>, start: int, end: int, nodes: seq<int>, ln: real -> real,
                  values: seq<real>, base: real, rawPath: seq<real>)
    requires var effective := Deduplicated(Sort(points, ByTime()));
      && EquityAt(effective, start) == Some(base) && base > 0.0 && EquityAt(effective, end).Some?
        && |values| == |nodes| > 0
      && (forall k :: 0 <= k < |nodes| ==> Some(values[k]) == EquityAt(effective, nodes[k]))
      && rawPath == Anchored(InReport(points, start, end), InReport(points, start, end), start, end, base,
          EquityAt(effective, end).value)
    requires rawPath != [] && m.er == Efficiency(Logs(values, base, ln))
    requires m.rawEr == Efficiency(Logs(rawPath, base, ln))
    ensures AreRatios(m, points, start, end, nodes, ln)
  {
    var effective := Deduplicated(Sort(points, ByTime()));
    hide EquityAt, Deduplicated, Sorting.Sort, InReport, Anchored, Efficiency, Logs;
    var found := seq(|nodes|,
        k requires 0 <= k < |nodes| && EquityAt(effective, nodes[k]).Some? => EquityAt(effective, nodes[k]).value);
    assert found == values;
  }

  /** The risk figures are those of the anchored raw path, the deltas those against the thinned one. */
  ghost predicate IsMetric(m: Metric, points: seq<Point>, start: int, end: int) {
    var s, raw := Sort(points, ByTime()), InReport(points, start, end);
    && LastUpTo(s, start).Some? && LastUpTo(s, end).Some?
    && var base, terminal := LastUpTo(s, start).value.equity, LastUpTo(s, end).value.equity;
      var whole, thin :=
        Anchored(raw, raw, start, end, base, terminal), Anchored(raw, Deduplicated(raw), start, end, base, terminal);
      && m.drawdown == Risk(whole, |whole|).1 && m.duplicateDdDelta == m.drawdown - Risk(thin, |thin|).1
      && Risk(whole, |whole|).0 > 0.0 && Risk(thin, |thin|).0 > 0.0
      && m.peakGap == Loss(terminal, Risk(whole, |whole|).0)
      && m.duplicatePeakGapDelta == m.peakGap - Loss(terminal, Risk(thin, |thin|).0)
  }

  lemma MetricIs(m: Metric, points: seq<Point>, start: int, end: int, first: Point, last: Point)
    requires LastUpTo(Sort(points, ByTime()), start) == Some(first)
    requires LastUpTo(Sort(points, ByTime()), end) == Some(last)
    requires var raw := InReport(points, start, end);
      var whole := Anchored(raw, raw, start, end, first.equity, last.equity);
      var thin := Anchored(raw, Deduplicated(raw), start, end, first.equity, last.equity);
      && m.drawdown == Risk(whole, |whole|).1 && m.duplicateDdDelta == m.drawdown - Risk(thin, |thin|).1
      && Risk(whole, |whole|).0 > 0.0 && Risk(thin, |thin|).0 > 0.0
      && m.peakGap == Loss(last.equity, Risk(whole, |whole|).0)
      && m.duplicatePeakGapDelta == m.peakGap - Loss(last.equity, Risk(thin, |thin|).0)
    ensures IsMetric(m, points, start, end)
  {
    hide InReport, Anchored, Risk, Sorting.Sort, LastUpTo, Loss;
  }

  lemma EarlierIsFound(points: seq<Point>, start: int, end: int)
    requires AllPositive(points) && start <= end && EquityAt(Deduplicated(Sort(points, ByTime())), start).Some?
    ensures EquityAt(Deduplicated(Sort(points, ByTime())), end).Some?
    ensures EquityAt(Deduplicated(Sort(points, ByTime())), end).value > 0.0
  {
    LookupIsPositive(points, start);
    LookupIsPositive(points, end);
    hide EquityAt, Deduplicated, Sorting.Sort, LastUpTo;
    var k :| 0 <= k < |points| && points[k].time <= start;
    assert points[k].time <= end;
  }

  lemma NodesAreFound(points: seq<Point>, start: int, nodes: seq<int>)
    requires AllPositive(points) && EquityAt(Deduplicated(Sort(points, ByTime())), start).Some?
    requires nodes != [] && nodes[0] == start && forall k :: 0 < k < |nodes| ==> nodes[k - 1] < nodes[k]
    ensures forall k :: 0 <= k < |nodes| ==>
      EquityAt(Deduplicated(Sort(points, ByTime())), nodes[k]).Some?
        && EquityAt(Deduplicated(Sort(points, ByTime())), nodes[k]).value > 0.0
  {
    forall k | 0 <= k < |nodes|
      ensures EquityAt(Deduplicated(Sort(points, ByTime())), nodes[k]).Some?
      ensures EquityAt(Deduplicated(Sort(points, ByTime())), nodes[k]).value > 0.0
    {
      NodesAscend(nodes, k);
      EarlierIsFound(points, start, nodes[k]);
    }
  }

  lemma {:induction false} NodesAscend(nodes: seq<int>, k: nat)
    requires k < |nodes| && forall k :: 0 < k < |nodes| ==> nodes[k - 1] < nodes[k]
    ensures nodes[0] <= nodes[k]
  {
    if k > 0 {
      NodesAscend(nodes, k - 1);
      assert nodes[k - 1] < nodes[k];
    }
  }
}
