/** Step curves of balance and equity: the last value before a time, the drawdown over an anchored
    window, and the drawdown of the sum of several curves on their common timestamps. */
module StepCurves {
  import opened Drawdown
  import opened Sorting

  /** One sampled quantity: `start` holds until the first sample. */
  datatype Curve = Curve(start: real, times: seq<int>, values: seq<real>)

  ghost predicate Chronological(c: Curve) {
    |c.times| == |c.values| && NonDecreasing(c.times)
  }

  ghost predicate NonDecreasing(s: seq<int>) {
    forall a, b :: 0 <= a <= b < |s| ==> s[a] <= s[b]
  }

  /** `np.searchsorted(times, t, "left")`. */
  function Before(times: seq<int>, t: int): (n: nat)
    ensures n <= |times|
  {
    if times == [] then 0
    else if times[|times| - 1] < t then |times|
    else Before(times[..|times| - 1], t)
  }

  /** On sorted times `Before` splits at `t`, and only there. */
  lemma {:induction false} BeforeSplits(times: seq<int>, t: int)
    requires NonDecreasing(times)
    ensures forall k :: 0 <= k < Before(times, t) ==> times[k] < t
    ensures forall k :: Before(times, t) <= k < |times| ==> times[k] >= t
  {
    if times != [] && times[|times| - 1] >= t {
      BeforeSplits(times[..|times| - 1], t);
    }
  }

  lemma BeforeIs(times: seq<int>, t: int, n: nat)
    requires NonDecreasing(times) && n <= |times|
    requires (forall k :: 0 <= k < n ==> times[k] < t) && (forall k :: n <= k < |times| ==> times[k] >= t)
    ensures Before(times, t) == n
  {
    BeforeSplits(times, t);
    var r := Before(times, t);
    assert r < |times| ==> times[r] >= t;
    assert n < |times| ==> times[n] >= t;
  }

  lemma BeforeMonotone(c: Curve, t: int, u: int)
    requires Chronological(c) && t <= u
    ensures Before(c.times, t) <= Before(c.times, u)
  {
    BeforeSplits(c.times, t);
    BeforeSplits(c.times, u);
    var r := Before(c.times, u);
    assert r < |c.times| ==> c.times[r] >= u;
  }

  /** `Series._last`: the value that holds just before `t`. */
  function Last(c: Curve, t: int): real
    requires |c.times| == |c.values|
  {
    var i := Before(c.times, t);
    if i > 0 then c.values[i - 1] else c.start
  }

  /** The value before `t` is that of the last sample before `t`, or the starting value if there is none. */
  lemma LastMeans(c: Curve, t: int)
    requires Chronological(c)
    ensures (|| (Last(c, t) == c.start && forall k :: 0 <= k < |c.times| ==> c.times[k] >= t)
        || exists k :: 0 <= k < |c.times| && c.times[k] < t && Last(c, t) == c.values[k]
             && forall j :: k < j < |c.times| ==> c.times[j] >= t)
  {
    BeforeSplits(c.times, t);
    var n := Before(c.times, t);
    if n > 0 {
      assert c.times[n - 1] < t;
    }
  }

  /** The anchor before `a`, then every sample of [a, b). */
  function Segment(c: Curve, a: int, b: int): (seg: seq<real>)
    requires |c.times| == |c.values|
    ensures seg != []
  {
    var from, to := Before(c.times, a), Before(c.times, b);
    [Last(c, a)] + if from <= to then c.values[from..to] else []
  }

  /** The segment is the value before `a` followed by the samples of [a, b). */
  lemma SegmentMeans(c: Curve, a: int, b: int) returns (p: nat, q: nat)
    requires Chronological(c) && a <= b
    ensures p <= q <= |c.values| && Segment(c, a, b) == [Last(c, a)] + c.values[p..q]
    ensures forall k :: 0 <= k < |c.times| ==> (p <= k < q <==> a <= c.times[k] < b)
  {
    BeforeSplits(c.times, a);
    BeforeSplits(c.times, b);
    BeforeMonotone(c, a, b);
    p, q := Before(c.times, a), Before(c.times, b);
  }

  /** `Series.drawdown`: absolute, and percent of the peak where the absolute one is deepest. */
  function WindowDrawdown(c: Curve, a: int, b: int): (real, real)
    requires |c.times| == |c.values|
  {
    Deepest(Segment(c, a, b))
  }

  /** Inside a window the curve's value is a value of the window's segment. */
  lemma LastInSegment(c: Curve, a: int, b: int, t: int)
    requires Chronological(c) && a <= t <= b
    ensures 0 <= Before(c.times, t) - Before(c.times, a) < |Segment(c, a, b)|
    ensures Last(c, t) == Segment(c, a, b)[Before(c.times, t) - Before(c.times, a)]
  {
    BeforeMonotone(c, a, t);
    BeforeMonotone(c, t, b);
  }

  /** A window's path is a stretch of the outer window's path. */
  lemma InnerSegment(c: Curve, a: int, b: int, a': int, b': int) returns (p: nat, q: nat)
    requires Chronological(c) && a <= a' <= b' <= b
    ensures p < q <= |Segment(c, a, b)| && Segment(c, a', b') == Segment(c, a, b)[p..q]
    ensures a' == a ==> p == 0
    ensures q - 1 == Before(c.times, b') - Before(c.times, a)
    ensures |Segment(c, a, b)| - 1 == Before(c.times, b) - Before(c.times, a)
  {
    BeforeMonotone(c, a, a');
    BeforeMonotone(c, a', b');
    BeforeMonotone(c, b', b);
    LastInSegment(c, a, b, a');
    var from := Before(c.times, a);
    p, q := Before(c.times, a') - from, Before(c.times, b') - from + 1;
    var outer, inner := Segment(c, a, b), Segment(c, a', b');
    hide Before;
    assert |inner| == q - p && inner[0] == outer[p];
    forall k | 0 < k < |inner| ensures inner[k] == outer[p + k] {
      assert inner[k] == c.values[from + p + k - 1];
    }
    assert inner == outer[p..q];
  }

  /** Shrinking the window never deepens the absolute drawdown, although the anchor moves. */
  lemma ShrinkingWindow(c: Curve, a: int, b: int, a': int, b': int)
    requires Chronological(c) && a <= a' <= b' <= b
    ensures WindowDrawdown(c, a', b').0 <= WindowDrawdown(c, a, b).0
  {
    hide Segment, Before, Deepest;
    var outer, inner := Segment(c, a, b), Segment(c, a', b');
    var p, q := InnerSegment(c, a, b, a', b');
    var at: seq<nat> := seq(|inner|, k requires 0 <= k < |inner| => p + k);
    ResampledFallsNoDeeper(outer, inner, at);
  }

  // ----- The sum of several curves

  ghost predicate AllChronological(curves: seq<Curve>) {
    forall i :: 0 <= i < |curves| ==> Chronological(curves[i])
  }

  /** `sum(s.equity_before(t) for s in series)`. */
  function SumLast(curves: seq<Curve>, t: int): real
    requires forall i :: 0 <= i < |curves| ==> |curves[i].times| == |curves[i].values|
  {
    if curves == [] then 0.0 else SumLast(curves[..|curves| - 1], t) + Last(curves[|curves| - 1], t)
  }

  /** The sum of the curves of two lists is the sum of both sums, and that of one curve its value. */
  lemma {:induction false} SumLastJoins(curves: seq<Curve>, more: seq<Curve>, c: Curve, t: int)
    requires forall i :: 0 <= i < |curves| ==> |curves[i].times| == |curves[i].values|
    requires forall i :: 0 <= i < |more| ==> |more[i].times| == |more[i].values|
    requires |c.times| == |c.values|
    ensures SumLast(curves + more, t) == SumLast(curves, t) + SumLast(more, t)
    ensures SumLast([c], t) == Last(c, t)
  {
    assert [c][..0] == [];
    if more == [] {
      assert curves + more == curves;
    } else {
      var n := |more| - 1;
      SumLastJoins(curves, more[..n], c, t);
      assert (curves + more)[..|curves| + n] == curves + more[..n];
    }
  }

  predicate InWindow(t: int, a: int, b: int) {
    a <= t < b
  }

  function StampSet(curves: seq<Curve>, a: int, b: int): set<int> {
    if curves == [] then {}
    else StampSet(curves[..|curves| - 1], a, b) + set t | t in curves[|curves| - 1].times && InWindow(t, a, b)
  }

  lemma {:induction false} StampsInWindow(curves: seq<Curve>, a: int, b: int)
    ensures forall t :: t in StampSet(curves, a, b) <==>
      a <= t < b && exists i :: 0 <= i < |curves| && t in curves[i].times
  {
    if curves != [] {
      StampsInWindow(curves[..|curves| - 1], a, b);
    }
  }

  /** Anchor, then the summed value just after every stamp. */
  function CombinedPath(curves: seq<Curve>, a: int, stamps: seq<int>): (path: seq<real>)
    requires forall i :: 0 <= i < |curves| ==> |curves[i].times| == |curves[i].values|
    ensures |path| == |stamps| + 1
  {
    [SumLast(curves, a)] + seq(|stamps|, k requires 0 <= k < |stamps| => SumLast(curves, stamps[k] + 1))
  }

  function SumOfDrawdowns(curves: seq<Curve>, a: int, b: int): real
    requires forall i :: 0 <= i < |curves| ==> |curves[i].times| == |curves[i].values|
  {
    if curves == [] then 0.0
    else SumOfDrawdowns(curves[..|curves| - 1], a, b) + WindowDrawdown(curves[|curves| - 1], a, b).0
  }

  /** The bound adds up the members' drawdowns, each once. */
  lemma {:induction false} SumOfDrawdownsJoins(curves: seq<Curve>, more: seq<Curve>, c: Curve, a: int, b: int)
    requires forall i :: 0 <= i < |curves| ==> |curves[i].times| == |curves[i].values|
    requires forall i :: 0 <= i < |more| ==> |more[i].times| == |more[i].values|
    requires |c.times| == |c.values|
    ensures SumOfDrawdowns(curves + more, a, b) == SumOfDrawdowns(curves, a, b) + SumOfDrawdowns(more, a, b)
    ensures SumOfDrawdowns([c], a, b) == WindowDrawdown(c, a, b).0
  {
    hide WindowDrawdown;
    assert [c][..0] == [];
    if more == [] {
      assert curves + more == curves;
    } else {
      var n := |more| - 1;
      SumOfDrawdownsJoins(curves, more[..n], c, a, b);
      assert (curves + more)[..|curves| + n] == curves + more[..n];
    }
  }

  /** Between two moments of a window the curves together lose at most what each loses at worst. */
  lemma {:induction false} JointFall(curves: seq<Curve>, a: int, b: int, t: int, u: int)
    requires AllChronological(curves) && a <= t <= u <= b
    ensures SumLast(curves, t) - SumLast(curves, u) <= SumOfDrawdowns(curves, a, b)
  {
    if curves != [] {
      var most, c := curves[..|curves| - 1], curves[|curves| - 1];
      JointFall(most, a, b, t, u);
      LastInSegment(c, a, b, t);
      LastInSegment(c, a, b, u);
      BeforeMonotone(c, t, u);
      AbsoluteIsLargestFall(Segment(c, a, b));
    }
  }

  /** On the union of their timestamps, summed curves fall by at most the sum of their own drawdowns. */
  lemma CombinedIsSubadditive(curves: seq<Curve>, a: int, b: int, stamps: seq<int>)
    requires AllChronological(curves) && Increasing(stamps) && forall t :: t in stamps ==> a <= t < b
    ensures stamps != [] ==> Deepest(CombinedPath(curves, a, stamps)).0 <= SumOfDrawdowns(curves, a, b)
    ensures stamps == [] ==> Deepest(CombinedPath(curves, a, stamps)).0 == 0.0
  {
    hide Deepest, SumLast, SumOfDrawdowns;
    var path := CombinedPath(curves, a, stamps);
    AbsoluteIsLargestFall(path);
    var j, k :| 0 <= j <= k < |path| && path[j] - path[k] == Deepest(path).0;
    assert path[j] == SumLast(curves, Moment(a, stamps, j)) && path[k] == SumLast(curves, Moment(a, stamps, k));
    if stamps != [] {
      assert stamps[|stamps| - 1] in stamps && stamps[0] in stamps;
      assert a <= Moment(a, stamps, j) <= Moment(a, stamps, k) <= b;
      JointFall(curves, a, b, Moment(a, stamps, j), Moment(a, stamps, k));
    }
  }

  ghost function Moment(a: int, stamps: seq<int>, k: nat): int
    requires k <= |stamps|
  {
    if k == 0 then a else stamps[k - 1] + 1
  }

  /** `combined`: balance before and after the window, and the two drawdowns of the summed equity. */
  method Combined(balances: seq<Curve>, equities: seq<Curve>, a: int, b: int)
    returns (balanceA: real, balanceB: real, dd: (real, real), ghost stamps: seq<int>)
    requires AllChronological(balances) && AllChronological(equities)
    ensures balanceA == SumLast(balances, a) && balanceB == SumLast(balances, b)
    ensures Increasing(stamps)
    ensures forall t :: t in stamps <==> a <= t < b && exists i :: 0 <= i < |equities| && t in equities[i].times
    ensures dd == Deepest(CombinedPath(equities, a, stamps))
    ensures a <= b ==> dd.0 <= SumOfDrawdowns(equities, a, b)
  {
    balanceA, balanceB := SumLast(balances, a), SumLast(balances, b);
    var ordered := SortedSet(StampSet(equities, a, b));
    stamps := ordered;
    var path := [SumLast(equities, a)];
    for k := 0 to |ordered|
      invariant path == CombinedPath(equities, a, ordered[..k])
    {
      path := path + [SumLast(equities, ordered[k] + 1)];
    }
    assert ordered[..|ordered|] == ordered;
    dd := Deepest(path);
    StampsInWindow(equities, a, b);
    CombinedIsSubadditive(equities, a, b, ordered);
    if a <= b {
      JointFall(equities, a, b, a, a);
    }
  }
}
