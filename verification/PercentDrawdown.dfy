/** When the percentage drawdown of a window bounds that of every smaller window.  The percentage is
    read where the absolute fall is deepest, so a smaller window may report a larger one. */
module PercentDrawdown {
  import opened Drawdown
  import opened StepCurves

  /** The fall from `x` to `y` in percent of `x`. */
  function FallPercent(x: real, y: real): real
    requires x > 0.0
  {
    Share(x - y, x) * 100.0
  }

  function Share(y: real, x: real): real
    requires x > 0.0
  {
    y / x
  }

  lemma ShareIs(y: real, x: real, share: real)
    requires x > 0.0 && share * x == y
    ensures Share(y, x) == share
  {
    var p := Share(y, x);
    assert p * x == y;
    assert p < share ==> p * x < share * x;
    assert p > share ==> p * x > share * x;
  }

  lemma FallPercentIs(x: real, y: real)
    requires x > 0.0
    ensures FallPercent(x, y) == 100.0 - Share(y, x) * 100.0
  {
    var share := Share(y, x);
    assert share * x == y;
    ShareIs(x - y, x, 1.0 - share);
  }

  lemma ShareOrder(y: real, x: real, v: real, u: real)
    requires x > 0.0 && u > 0.0
    ensures Share(y, x) <= Share(v, u) <==> y * u <= v * x
  {
    var p, q := Share(y, x), Share(v, u);
    assert y == p * x && v == q * u;
    assert y * u == p * (x * u) && v * x == q * (x * u);
    assert x * u > 0.0;
    if p <= q {
      assert p * (x * u) <= q * (x * u);
    } else {
      assert p * (x * u) > q * (x * u);
    }
  }

  /** A higher peak and a lower low lose more. */
  lemma HigherAndLower(u: real, v: real, x: real, y: real)
    requires 0.0 < u <= x && 0.0 < v && y <= v
    ensures FallPercent(u, v) <= FallPercent(x, y)
  {
    assert y * u <= v * u <= v * x;
    ShareOrder(y, x, v, u);
    FallPercentIs(u, v);
    FallPercentIs(x, y);
  }

  /** A larger fall from a lower peak loses more. */
  lemma DeeperFromLower(u: real, v: real, x: real, y: real)
    requires 0.0 < x <= u && 0.0 <= u - v <= x - y
    ensures FallPercent(u, v) <= FallPercent(x, y)
  {
    assert (u - v) * x <= (u - v) * u <= (x - y) * u;
    assert y * u <= v * x;
    ShareOrder(y, x, v, u);
    FallPercentIs(u, v);
    FallPercentIs(x, y);
  }

  ghost predicate Positive(s: seq<real>) {
    forall k :: 0 <= k < |s| ==> s[k] > 0.0
  }

  /** The percentage reported for a path of positive values. */
  lemma PercentIs(s: seq<real>)
    requires s != [] && Positive(s)
    ensures var j := DeepestAmong(s, |s|); Peak(s, j) > 0.0 && Deepest(s).1 == FallPercent(Peak(s, j), s[j])
  {
    PeakPositive(s, DeepestAmong(s, |s|));
  }

  /** No value is followed by one that lies more than `pct` percent below it. */
  ghost predicate NoWorsePair(s: seq<real>, pct: real)
    requires Positive(s)
  {
    forall i, k :: 0 <= i <= k < |s| ==> FallPercent(s[i], s[k]) <= pct
  }

  lemma NoWorsePairMeans(s: seq<real>, pct: real, i: nat, k: nat)
    requires Positive(s) && NoWorsePair(s, pct) && i <= k < |s|
    ensures FallPercent(s[i], s[k]) <= pct
  {
  }

  // ----- A later start never reports more

  lemma FallsInSuffix(s: seq<real>, p: nat, i: nat, j: nat)
    requires p <= i <= j < |s|
    ensures s[i] - s[j] <= Drop(s[p..], DeepestAmong(s[p..], |s| - p))
  {
    var t := s[p..];
    assert Deepest(t).0 == Drop(t, DeepestAmong(t, |t|));
    hide Deepest, Drop, DeepestAmong;
    AbsoluteIsLargestFall(t);
    assert t[i - p] - t[j - p] <= Deepest(t).0;
  }

  /** If the peak of the deepest fall lies in the suffix, it does not exceed the suffix's own. */
  lemma PeakInSuffix(s: seq<real>, p: nat, peak: nat)
    requires p < |s| && Positive(s)
    requires var j := DeepestAmong(s, |s|); p <= peak <= j && s[peak] == Peak(s, j)
    ensures s[peak] <= Peak(s[p..], DeepestAmong(s[p..], |s| - p))
  {
    var t := s[p..];
    var j, k := DeepestAmong(s, |s|), DeepestAmong(t, |t|);
    hide Deepest, Peak, DeepestAmong;
    DeepestIsFirstMaximum(s, |s|);
    SuffixPeak(s, p, k);
    FallsInSuffix(s, p, peak, j);
    assert s[peak] - s[j] <= Drop(t, k) <= Drop(s, p + k);
    assert j <= p + k;
    PeakIsMaximum(t, k);
    assert t[peak - p] <= Peak(t, k);
  }

  lemma SuffixPeak(s: seq<real>, p: nat, k: nat)
    requires p + k < |s|
    ensures Peak(s[p..], k) <= Peak(s, p + k)
  {
    PeakIsMaximum(s[p..], k);
    PeakIsMaximum(s, p + k);
    var i :| 0 <= i <= k && s[p..][i] == Peak(s[p..], k);
    assert s[p + i] <= Peak(s, p + k);
  }

  lemma DeepestIsFirst(s: seq<real>, j: nat, k: nat)
    requires k < |s| && j == DeepestAmong(s, |s|)
    ensures Peak(s, k) - s[k] <= Peak(s, j) - s[j]
  {
    DeepestIsFirstMaximum(s, |s|);
    assert Drop(s, k) <= Drop(s, j);
  }

  lemma PeakAbove(s: seq<real>, k: nat, i: nat)
    requires i <= k < |s|
    ensures s[i] <= Peak(s, k)
  {
    PeakIsMaximum(s, k);
  }

  lemma PeakAt(s: seq<real>, k: nat) returns (i: nat)
    requires k < |s|
    ensures i <= k && s[i] == Peak(s, k)
  {
    PeakIsMaximum(s, k);
    i :| 0 <= i <= k && s[i] == Peak(s, k);
  }

  /** What is known of the deepest fall of a path and of its suffix. */
  lemma SuffixFall(s: seq<real>, p: nat) returns (peak: nat)
    requires p < |s| && Positive(s)
    ensures var t := s[p..]; var j := DeepestAmong(s, |s|); var k := DeepestAmong(t, |t|);
            && 0.0 <= Peak(t, k) - t[k] <= Peak(s, p + k) - t[k] <= Peak(s, j) - s[j]
            && peak <= j && s[peak] == Peak(s, j)
            && (Peak(t, k) < s[peak] ==> peak < p && s[peak] <= Peak(s, p + k))
  {
    var t := s[p..];
    var j, k := DeepestAmong(s, |s|), DeepestAmong(t, |t|);
    hide Peak, DeepestAmong;
    DeepestIsFirst(s, j, p + k);
    SuffixPeak(s, p, k);
    PeakAbove(t, k, k);
    peak := PeakAt(s, j);
    if peak <= p + k {
      PeakAbove(s, p + k, peak);
    }
    if p <= peak {
      PeakInSuffix(s, p, peak);
    }
  }

  lemma SuffixReportsLess(s: seq<real>, p: nat)
    requires p < |s| && Positive(s)
    ensures Deepest(s[p..]).1 <= Deepest(s).1
  {
    hide Deepest, Peak, DeepestAmong, FallPercent;
    var t := s[p..];
    var j, k := DeepestAmong(s, |s|), DeepestAmong(t, |t|);
    PercentIs(s);
    PercentIs(t);
    var peak := SuffixFall(s, p);
    if Peak(s, j) <= Peak(t, k) {
      DeeperFromLower(Peak(t, k), t[k], Peak(s, j), s[j]);
    } else {
      HigherAndLower(Peak(t, k), t[k], Peak(s, j), s[j]);
    }
  }

  // ----- Pairs and prefixes

  /** The reported percentage is the loss between some value and a later one. */
  lemma PercentIsALoss(s: seq<real>, pct: real)
    requires s != [] && Positive(s) && NoWorsePair(s, pct)
    ensures Deepest(s).1 <= pct
  {
    var j := DeepestAmong(s, |s|);
    PercentIs(s);
    PeakIsMaximum(s, j);
    var i :| 0 <= i <= j && s[i] == Peak(s, j);
    NoWorsePairMeans(s, pct, i, j);
  }

  /** The position whose relative distance below the running peak is largest. */
  lemma {:induction false} WorstLow(s: seq<real>, n: nat) returns (worst: nat)
    requires Positive(s) && 0 < n <= |s|
    ensures worst < n && Peak(s, worst) > 0.0
    ensures forall i, k :: 0 <= i <= k < n ==> FallPercent(s[i], s[k]) <= FallPercent(Peak(s, worst), s[worst])
  {
    var last := n - 1;
    worst := last;
    PeakPositive(s, last);
    if n > 1 {
      var earlier := WorstLow(s, n - 1);
      if FallPercent(Peak(s, earlier), s[earlier]) > FallPercent(Peak(s, last), s[last]) {
        worst := earlier;
      }
    }
    hide FallPercent, Peak;
    PeakIsMaximum(s, last);
    forall i | 0 <= i <= last ensures FallPercent(s[i], s[last]) <= FallPercent(Peak(s, last), s[last]) {
      HigherAndLower(s[i], s[last], Peak(s, last), s[last]);
    }
  }

  lemma PrefixPeak(s: seq<real>, n: nat, k: nat)
    requires k < n <= |s|
    ensures Peak(s[..n], k) == Peak(s, k)
  {
    if k > 0 {
      PrefixPeak(s, n, k - 1);
    }
  }

  lemma PrefixFall(s: seq<real>, k: nat)
    requires k < |s|
    ensures var t := s[..k + 1]; var j := DeepestAmong(t, k + 1);
            Peak(t, j) <= Peak(s, k) && 0.0 <= Peak(s, k) - s[k] <= Peak(t, j) - t[j]
  {
    var t := s[..k + 1];
    var j := DeepestAmong(t, k + 1);
    DeepestIsFirstMaximum(t, k + 1);
    assert Drop(t, k) <= Drop(t, j);
    PrefixPeak(s, k + 1, k);
    PeakIsMaximum(t, j);
    PeakIsMaximum(t, k);
  }

  /** The path up to `k` reports at least the loss at `k`. */
  lemma PrefixReportsWorst(s: seq<real>, k: nat)
    requires Positive(s) && k < |s|
    ensures Peak(s, k) > 0.0 && Deepest(s[..k + 1]).1 >= FallPercent(Peak(s, k), s[k])
  {
    hide Deepest, Peak, DeepestAmong, FallPercent;
    var t := s[..k + 1];
    var j := DeepestAmong(t, k + 1);
    PeakPositive(s, k);
    PercentIs(t);
    PrefixFall(s, k);
    DeeperFromLower(Peak(s, k), s[k], Peak(t, j), t[j]);
  }

  lemma SubsequenceHasNoWorsePair(s: seq<real>, p: nat, q: nat, pct: real)
    requires p < q <= |s| && Positive(s) && NoWorsePair(s, pct)
    ensures Positive(s[p..q]) && NoWorsePair(s[p..q], pct)
  {
  }

  // ----- Windows of a curve

  /** No window inside [a, b) reports a larger percentage than [a, b) does. */
  ghost predicate WindowsReportLess(c: Curve, a: int, b: int)
    requires Chronological(c)
  {
    forall a', b' :: a <= a' <= b' <= b ==> WindowDrawdown(c, a', b').1 <= WindowDrawdown(c, a, b).1
  }

  lemma Reported(c: Curve, a: int, b: int, a': int, b': int)
    requires Chronological(c) && WindowsReportLess(c, a, b) && a <= a' <= b' <= b
    ensures WindowDrawdown(c, a', b').1 <= WindowDrawdown(c, a, b).1
  {
  }

  /** Moving only the start of a window never raises the percentage. */
  lemma LaterStartReportsLess(c: Curve, a: int, a': int, b: int)
    requires Chronological(c) && a <= a' <= b && Positive(Segment(c, a, b))
    ensures WindowDrawdown(c, a', b).1 <= WindowDrawdown(c, a, b).1
  {
    var p, q := InnerSegment(c, a, b, a', b);
    var outer := Segment(c, a, b);
    BeforeMonotone(c, a, b);
    assert q == |outer| && outer[p..q] == outer[p..];
    SuffixReportsLess(outer, p);
  }

  /** A window may end after position `k` of the path: the samples of one moment are not torn apart. */
  ghost predicate MayEnd(c: Curve, a: int, b: int, k: nat)
    requires Chronological(c) && a <= b && k < |Segment(c, a, b)|
  {
    var from := Before(c.times, a);
    k == 0 || k == |Segment(c, a, b)| - 1 || (from + k < |c.times| && c.times[from + k - 1] < c.times[from + k])
  }

  lemma EndingAt(c: Curve, a: int, b: int, k: nat) returns (end: int)
    requires Chronological(c) && a <= b && k < |Segment(c, a, b)| && MayEnd(c, a, b, k)
    ensures a <= end <= b && Segment(c, a, end) == Segment(c, a, b)[..k + 1]
  {
    hide Segment, Before;
    var from := Before(c.times, a);
    var p, q := InnerSegment(c, a, b, a, b);
    end := if k == 0 then a else if k == |Segment(c, a, b)| - 1 then b else c.times[from + k - 1] + 1;
    if 0 < k < |Segment(c, a, b)| - 1 {
      BeforeSplits(c.times, a);
      BeforeSplits(c.times, b);
      assert c.times[from + k - 1] < b && c.times[from + k - 1] >= a;
      BeforeIs(c.times, end, from + k);
    }
    assert Before(c.times, end) == from + k;
    assert a <= end <= b;
    p, q := InnerSegment(c, a, b, a, end);
    assert p == 0 && q == k + 1;
    assert Segment(c, a, b)[0..k + 1] == Segment(c, a, b)[..k + 1];
  }

  lemma EndIsAllowed(c: Curve, a: int, b: int, b': int, k: nat)
    requires Chronological(c) && a <= b' <= b && k < |Segment(c, a, b)| && k == Before(c.times, b') - Before(c.times, a)
    ensures MayEnd(c, a, b, k)
  {
    BeforeMonotone(c, a, b);
    BeforeSplits(c.times, b');
    var from := Before(c.times, a);
    assert 0 < k && from + k < |c.times| ==> c.times[from + k - 1] < b' <= c.times[from + k];
  }

  /** No stretch of the path from the anchor to an admissible end reports more than the whole. */
  ghost predicate PrefixesReportLess(c: Curve, a: int, b: int)
    requires Chronological(c) && a <= b
  {
    forall k :: 0 <= k < |Segment(c, a, b)| && MayEnd(c, a, b, k) ==>
      Deepest(Segment(c, a, b)[..k + 1]).1 <= Deepest(Segment(c, a, b)).1
  }

  lemma PrefixReported(c: Curve, a: int, b: int, b': int)
    requires Chronological(c) && a <= b' <= b && PrefixesReportLess(c, a, b)
    ensures WindowDrawdown(c, a, b').1 <= WindowDrawdown(c, a, b).1
  {
    hide Segment, Before, Deepest, MayEnd;
    var p, q := InnerSegment(c, a, b, a, b');
    EndIsAllowed(c, a, b, b', q - 1);
    assert Segment(c, a, b)[0..q] == Segment(c, a, b)[..q - 1 + 1];
  }

  lemma PositiveInside(c: Curve, a: int, b: int, b': int)
    requires Chronological(c) && a <= b' <= b && Positive(Segment(c, a, b))
    ensures Positive(Segment(c, a, b'))
  {
    var p, q := InnerSegment(c, a, b, a, b');
  }

  /** The exact condition for every chronological curve of positive values. */
  lemma PercentageByPrefixes(c: Curve, a: int, b: int)
    requires Chronological(c) && a <= b && Positive(Segment(c, a, b))
    ensures WindowsReportLess(c, a, b) <==> PrefixesReportLess(c, a, b)
  {
    hide Segment, Deepest, MayEnd, Positive;
    if WindowsReportLess(c, a, b) {
      forall k | 0 <= k < |Segment(c, a, b)| && MayEnd(c, a, b, k)
        ensures Deepest(Segment(c, a, b)[..k + 1]).1 <= Deepest(Segment(c, a, b)).1
      {
        var end := EndingAt(c, a, b, k);
        Reported(c, a, b, a, end);
      }
    }
    if PrefixesReportLess(c, a, b) {
      forall a', b' | a <= a' <= b' <= b ensures WindowDrawdown(c, a', b').1 <= WindowDrawdown(c, a, b).1 {
        PrefixReported(c, a, b, b');
        PositiveInside(c, a, b, b');
        LaterStartReportsLess(c, a, a', b');
      }
    }
  }

  /** Without a worse pair the law holds, whatever the timestamps. */
  lemma NoWorsePairIsEnough(c: Curve, a: int, b: int)
    requires Chronological(c) && a <= b && Positive(Segment(c, a, b))
    requires NoWorsePair(Segment(c, a, b), WindowDrawdown(c, a, b).1)
    ensures WindowsReportLess(c, a, b)
  {
    var s, pct := Segment(c, a, b), WindowDrawdown(c, a, b).1;
    forall a', b' | a <= a' <= b' <= b ensures WindowDrawdown(c, a', b').1 <= pct {
      var p, q := InnerSegment(c, a, b, a', b');
      SubsequenceHasNoWorsePair(s, p, q, pct);
      PercentIsALoss(s[p..q], pct);
    }
  }

  /** When no two samples share a moment, the percentage bounds every smaller window exactly when
      no value of the path is followed by one that lies more than that percentage below it. */
  lemma PercentageByPairs(c: Curve, a: int, b: int)
    requires Chronological(c) && a <= b && Positive(Segment(c, a, b))
    requires forall i, j :: 0 <= i < j < |c.times| ==> c.times[i] < c.times[j]
    ensures WindowsReportLess(c, a, b) <==> NoWorsePair(Segment(c, a, b), WindowDrawdown(c, a, b).1)
  {
    var s, pct := Segment(c, a, b), WindowDrawdown(c, a, b).1;
    if NoWorsePair(s, pct) {
      NoWorsePairIsEnough(c, a, b);
    }
    if WindowsReportLess(c, a, b) {
      var k := WorstLow(s, |s|);
      BeforeMonotone(c, a, b);
      assert MayEnd(c, a, b, k);
      var end := EndingAt(c, a, b, k);
      Reported(c, a, b, a, end);
      PrefixReportsWorst(s, k);
    }
  }

  /** Two falls of which the deeper one is the smaller share of its peak. */
  lemma PercentageMayGrow(c: Curve)
    requires c == Curve(10.0, [1, 2, 3], [5.0, 1000.0, 900.0])
    ensures WindowDrawdown(c, 0, 4).1 == 10.0 && WindowDrawdown(c, 0, 2).1 == 50.0
  {
    BeforeIs(c.times, 0, 0);
    BeforeIs(c.times, 2, 1);
    BeforeIs(c.times, 4, 3);
    assert Segment(c, 0, 4) == [10.0, 5.0, 1000.0, 900.0];
    assert Segment(c, 0, 2) == [10.0, 5.0];
  }
}
