/** `path_dd` and `evaluate`: percentage drawdown of the sum of daily equity curves. */
module SummedCurve {
  import opened Drawdown

  /** `np.clip((peak - low) / peak * 100, 0, None)`. */
  function DropPct(peak: real, low: real): real
    requires peak != 0.0
  {
    Max((peak - low) / peak * 100.0, 0.0)
  }

  /** The closes a day's peak is taken over: the starting equity, then every earlier close. */
  function Previous(start: real, closes: seq<real>): (prev: seq<real>)
    ensures |prev| == |closes|
  {
    if closes == [] then [] else [start] + closes[..|closes| - 1]
  }

  function PathDd(start: real, closes: seq<real>, lows: seq<real>): (path: seq<real>)
    requires |closes| == |lows| && PositiveOn(Previous(start, closes), 0, |closes|)
    ensures |path| == |closes|
  {
    var prev := Previous(start, closes);
    seq(|closes|, k requires 0 <= k < |closes| => PeakPositive(prev, k); DropPct(Peak(prev, k), lows[k]))
  }

  function Largest(s: seq<real>): real
    requires s != []
  {
    Peak(s, |s| - 1)
  }

  // ----- One curve over a window of days

  ghost predicate IsWindow(closes: seq<real>, lows: seq<real>, from: nat, to: nat) {
    1 <= from < to <= |closes| == |lows| && PositiveOn(closes, from - 1, to)
  }

  /** `path_dd(C[from - 1], C[from:to], M[from:to]).max()`. */
  ghost function WindowDd(closes: seq<real>, lows: seq<real>, from: nat, to: nat): real
    requires IsWindow(closes, lows, from, to)
  {
    WindowPrevious(closes, lows, from, to);
    Largest(PathDd(closes[from - 1], closes[from..to], lows[from..to]))
  }

  lemma WindowPrevious(closes: seq<real>, lows: seq<real>, from: nat, to: nat)
    requires IsWindow(closes, lows, from, to)
    ensures Previous(closes[from - 1], closes[from..to]) == closes[from - 1..to - 1]
    ensures PositiveOn(closes[from - 1..to - 1], 0, to - from)
  {
    var days, shifted := closes[from..to], closes[from - 1..to - 1];
    var previous := Previous(closes[from - 1], days);
    forall k | 0 <= k < |previous| ensures previous[k] == shifted[k] {
      if k > 0 {
        assert previous[k] == days[k - 1];
      }
    }
    assert previous == shifted;
  }

  /** The highest close of the window before day `d`. */
  ghost function PeakBefore(closes: seq<real>, from: nat, to: nat, d: nat): real
    requires 1 <= from <= d < to <= |closes|
  {
    Peak(closes[from - 1..to - 1], d - from)
  }

  lemma PeakBeforePositive(closes: seq<real>, lows: seq<real>, from: nat, to: nat, d: nat)
    requires IsWindow(closes, lows, from, to) && from <= d < to
    ensures PeakBefore(closes, from, to, d) > 0.0
  {
    PeakPositive(closes[from - 1..to - 1], d - from);
  }

  /** The drawdown of one day of the window. */
  ghost function DayDd(closes: seq<real>, lows: seq<real>, from: nat, to: nat, d: nat): real
    requires IsWindow(closes, lows, from, to) && from <= d < to
  {
    PeakBeforePositive(closes, lows, from, to, d);
    DropPct(PeakBefore(closes, from, to, d), lows[d])
  }

  lemma LargestIs(s: seq<real>, bound: real)
    requires s != []
    ensures Largest(s) <= bound <==> forall k :: 0 <= k < |s| ==> s[k] <= bound
  {
    PeakIsMaximum(s, |s| - 1);
  }

  lemma PathDays(closes: seq<real>, lows: seq<real>, from: nat, to: nat) returns (path: seq<real>)
    requires IsWindow(closes, lows, from, to)
    ensures |path| == to - from && path != [] && WindowDd(closes, lows, from, to) == Largest(path)
    ensures forall k :: 0 <= k < |path| ==> path[k] == DayDd(closes, lows, from, to, from + k)
  {
    WindowPrevious(closes, lows, from, to);
    path := PathDd(closes[from - 1], closes[from..to], lows[from..to]);
  }

  /** A window's drawdown is the largest of its days. */
  lemma WindowDdByDays(closes: seq<real>, lows: seq<real>, from: nat, to: nat, bound: real)
    requires IsWindow(closes, lows, from, to)
    ensures WindowDd(closes, lows, from, to) <= bound <==> forall d :: from <= d < to ==>
      DayDd(closes, lows, from, to, d) <= bound
  {
    hide WindowDd, DayDd, Largest;
    var path := PathDays(closes, lows, from, to);
    LargestIs(path, bound);
    if WindowDd(closes, lows, from, to) <= bound {
      forall d | from <= d < to ensures DayDd(closes, lows, from, to, d) <= bound {
        assert path[d - from] <= bound;
      }
    }
  }

  /** `low` undercuts the earlier close `close` by at most `bound` percent of that close. */
  ghost predicate Within(close: real, low: real, bound: real) {
    100.0 * low >= (100.0 - bound) * close
  }

  lemma DropPctAtMost(peak: real, low: real, bound: real)
    requires peak > 0.0 && bound >= 0.0
    ensures DropPct(peak, low) <= bound <==> Within(peak, low, bound)
  {
    var fall := (peak - low) / peak * 100.0;
    assert fall * peak == (peak - low) * 100.0;
    if fall <= bound {
      assert fall * peak <= bound * peak;
    } else {
      assert fall * peak > bound * peak;
    }
  }

  lemma WithinSmaller(peak: real, close: real, low: real, bound: real)
    requires close <= peak && bound <= 100.0 && Within(peak, low, bound)
    ensures Within(close, low, bound)
  {
    assert (100.0 - bound) * (peak - close) >= 0.0;
  }

  /** One day of the window, against the closes before it. */
  lemma DayAtMost(closes: seq<real>, lows: seq<real>, from: nat, to: nat, bound: real, d: nat)
    requires IsWindow(closes, lows, from, to) && from <= d < to && 0.0 <= bound <= 100.0
    ensures DayDd(closes, lows, from, to, d) <= bound <==> forall c :: from - 1 <= c < d ==>
      Within(closes[c], lows[d], bound)
  {
    var prev, k, low := closes[from - 1..to - 1], d - from, lows[d];
    PeakBeforePositive(closes, lows, from, to, d);
    PeakIsMaximum(prev, k);
    DropPctAtMost(Peak(prev, k), low, bound);
    hide DropPct, Peak;
    if Within(Peak(prev, k), low, bound) {
      forall c | from - 1 <= c < d ensures Within(closes[c], low, bound) {
        assert prev[c - (from - 1)] == closes[c];
        WithinSmaller(Peak(prev, k), closes[c], low, bound);
      }
    } else {
      var j :| 0 <= j <= k && prev[j] == Peak(prev, k);
      assert closes[from - 1 + j] == prev[j];
    }
  }

  /** A window's drawdown is within a bound exactly when no low undercuts any earlier close by more. */
  lemma WindowDdAtMost(closes: seq<real>, lows: seq<real>, from: nat, to: nat, bound: real)
    requires IsWindow(closes, lows, from, to) && 0.0 <= bound <= 100.0
    ensures WindowDd(closes, lows, from, to) <= bound <==>
              forall c, d :: from - 1 <= c < d < to ==> Within(closes[c], lows[d], bound)
  {
    hide Within, DayDd, WindowDd;
    WindowDdByDays(closes, lows, from, to, bound);
    forall d | from <= d < to
      ensures DayDd(closes, lows, from, to, d) <= bound <==> forall c :: from - 1 <= c < d ==>
        Within(closes[c], lows[d], bound)
    {
      DayAtMost(closes, lows, from, to, bound, d);
    }
  }

  /** A window's drawdown is within any bound exactly when no low undercuts the peak before it by more. */
  lemma WindowDdByPeaks(closes: seq<real>, lows: seq<real>, from: nat, to: nat, bound: real)
    requires IsWindow(closes, lows, from, to) && bound >= 0.0
    ensures WindowDd(closes, lows, from, to) <= bound <==>
              forall d :: from <= d < to ==> Within(PeakBefore(closes, from, to, d), lows[d], bound)
  {
    hide Within, WindowDd, DropPct, PeakBefore;
    WindowDdByDays(closes, lows, from, to, bound);
    forall d | from <= d < to
      ensures DayDd(closes, lows, from, to, d) <= bound <==> Within(PeakBefore(closes, from, to, d), lows[d], bound)
    {
      PeakBeforePositive(closes, lows, from, to, d);
      DropPctAtMost(PeakBefore(closes, from, to, d), lows[d], bound);
    }
  }

  /** A positive account whose lows never go below zero never shows more than a hundred percent. */
  ghost predicate Solvent(closes: seq<real>, lows: seq<real>, from: nat, to: nat) {
    IsWindow(closes, lows, from, to) && forall d :: from <= d < to ==> lows[d] >= 0.0
  }

  lemma WindowDdIsNatural(closes: seq<real>, lows: seq<real>, from: nat, to: nat)
    requires IsWindow(closes, lows, from, to)
    ensures WindowDd(closes, lows, from, to) >= 0.0
  {
    var path := PathDays(closes, lows, from, to);
    LargestIs(path, Largest(path));
    assert path[0] >= 0.0;
  }

  lemma WindowDdRange(closes: seq<real>, lows: seq<real>, from: nat, to: nat)
    requires Solvent(closes, lows, from, to)
    ensures 0.0 <= WindowDd(closes, lows, from, to) <= 100.0
  {
    forall c, d | from - 1 <= c < d < to ensures Within(closes[c], lows[d], 100.0) {
    }
    WindowDdAtMost(closes, lows, from, to, 100.0);
    WindowDdIsNatural(closes, lows, from, to);
  }

  // ----- The sum of several curves

  /** Rows of equal length, one per point: closes, and the lowest equity of every day. */
  datatype Curves = Curves(closes: seq<seq<real>>, lows: seq<seq<real>>)

  ghost predicate Selects(rows: seq<seq<real>>, idx: seq<nat>, days: nat) {
    forall k :: 0 <= k < |idx| ==> idx[k] < |rows| && |rows[idx[k]]| == days
  }

  /** `a[idx].sum(axis=0)` on one day. */
  ghost function SumOn(rows: seq<seq<real>>, idx: seq<nat>, days: nat, day: nat): real
    requires Selects(rows, idx, days) && day < days
  {
    if idx == [] then 0.0 else SumOn(rows, idx[..|idx| - 1], days, day) + rows[idx[|idx| - 1]][day]
  }

  /** The sum over the members of two selections is the sum of both sums, and that of one member its value. */
  lemma {:induction false} SumOnJoins(rows: seq<seq<real>>, idx: seq<nat>, more: seq<nat>, i: nat, days: nat, day: nat)
    requires Selects(rows, idx, days) && Selects(rows, more, days) && i < |rows| && |rows[i]| == days && day < days
    ensures Selects(rows, idx + more, days) && Selects(rows, [i], days)
    ensures SumOn(rows, idx + more, days, day) == SumOn(rows, idx, days, day) + SumOn(rows, more, days, day)
    ensures SumOn(rows, [i], days, day) == rows[i][day]
  {
    assert [i][..0] == [] && [i][0] == i;
    if more == [] {
      assert idx + more == idx;
    } else {
      var n := |more| - 1;
      SumOnJoins(rows, idx, more[..n], i, days, day);
      assert (idx + more)[..|idx| + n] == idx + more[..n];
    }
  }

  ghost function Summed(rows: seq<seq<real>>, idx: seq<nat>, days: nat): (sum: seq<real>)
    requires Selects(rows, idx, days)
    ensures |sum| == days
  {
    seq(days, d requires 0 <= d < days => SumOn(rows, idx, days, d))
  }

  ghost predicate AllWindows(m: Curves, idx: seq<nat>, days: nat, from: nat, to: nat) {
    && Selects(m.closes, idx, days) && Selects(m.lows, idx, days)
    && 1 <= from < to <= days
    && forall k :: 0 <= k < |idx| ==> IsWindow(m.closes[idx[k]], m.lows[idx[k]], from, to)
  }

  ghost predicate AllSolvent(m: Curves, idx: seq<nat>, days: nat, from: nat, to: nat) {
    AllWindows(m, idx, days, from, to) && forall k :: 0 <= k < |idx| ==>
      Solvent(m.closes[idx[k]], m.lows[idx[k]], from, to)
  }

  ghost function MemberDd(m: Curves, i: nat, from: nat, to: nat): real
    requires i < |m.closes| && i < |m.lows| && IsWindow(m.closes[i], m.lows[i], from, to)
  {
    WindowDd(m.closes[i], m.lows[i], from, to)
  }

  lemma {:induction false} SumKeepsWithin(m: Curves, idx: seq<nat>, days: nat, c: nat, d: nat, bound: real)
    requires Selects(m.closes, idx, days) && Selects(m.lows, idx, days) && c < days && d < days
    requires forall k :: 0 <= k < |idx| ==> Within(m.closes[idx[k]][c], m.lows[idx[k]][d], bound)
    ensures Within(SumOn(m.closes, idx, days, c), SumOn(m.lows, idx, days, d), bound)
  {
    if idx != [] {
      var most, last := idx[..|idx| - 1], idx[|idx| - 1];
      SumKeepsWithin(m, most, days, c, d, bound);
      var more, one := SumOn(m.closes, most, days, c), m.closes[last][c];
      assert Within(one, m.lows[last][d], bound);
      assert (100.0 - bound) * (more + one) == (100.0 - bound) * more + (100.0 - bound) * one;
    }
  }

  lemma {:induction false} SumPositive(m: Curves, idx: seq<nat>, days: nat, from: nat, to: nat, day: nat)
    requires idx != [] && AllWindows(m, idx, days, from, to) && from - 1 <= day < to
    ensures SumOn(m.closes, idx, days, day) > 0.0
  {
    var most, last := idx[..|idx| - 1], idx[|idx| - 1];
    assert IsWindow(m.closes[last], m.lows[last], from, to);
    if most != [] {
      SumPositive(m, most, days, from, to, day);
    }
  }

  /** The member with the deepest drawdown of the window. */
  lemma {:induction false} DeepestMember(m: Curves, idx: seq<nat>, days: nat, from: nat, to: nat) returns (worst: nat)
    requires idx != [] && AllWindows(m, idx, days, from, to)
    ensures worst in idx
    ensures forall k :: 0 <= k < |idx| ==> MemberDd(m, idx[k], from, to) <= MemberDd(m, worst, from, to)
  {
    hide WindowDd;
    var most, last := idx[..|idx| - 1], idx[|idx| - 1];
    worst := last;
    if most != [] {
      var earlier := DeepestMember(m, most, days, from, to);
      if MemberDd(m, earlier, from, to) > MemberDd(m, last, from, to) {
        worst := earlier;
      }
    }
  }

  lemma SummedIsWindow(m: Curves, idx: seq<nat>, days: nat, from: nat, to: nat)
    requires idx != [] && AllWindows(m, idx, days, from, to)
    ensures IsWindow(Summed(m.closes, idx, days), Summed(m.lows, idx, days), from, to)
  {
    forall d | from - 1 <= d < to ensures Summed(m.closes, idx, days)[d] > 0.0 {
      SumPositive(m, idx, days, from, to, d);
    }
  }

  /** Some member's drawdown of the window is at least that of the summed curve. */
  ghost predicate Diversifies(m: Curves, idx: seq<nat>, days: nat, from: nat, to: nat)
    requires AllWindows(m, idx, days, from, to)
  {
    && IsWindow(Summed(m.closes, idx, days), Summed(m.lows, idx, days), from, to)
    && exists k :: 0 <= k < |idx| &&
         WindowDd(Summed(m.closes, idx, days), Summed(m.lows, idx, days), from, to) <= MemberDd(m, idx[k], from, to)
  }

  /** Summing curves diversifies: over any window the percentage drawdown of the summed curve is
      at most that of its worst member. */
  lemma SummedDrawdownDiversifies(m: Curves, idx: seq<nat>, days: nat, from: nat, to: nat)
    requires idx != [] && AllSolvent(m, idx, days, from, to)
    ensures Diversifies(m, idx, days, from, to)
  {
    SummedIsWindow(m, idx, days, from, to);
    var closes, lows := Summed(m.closes, idx, days), Summed(m.lows, idx, days);
    var worst := DeepestMember(m, idx, days, from, to);
    var bound := MemberDd(m, worst, from, to);
    WindowDdRange(m.closes[worst], m.lows[worst], from, to);
    forall c, d | from - 1 <= c < d < to ensures Within(closes[c], lows[d], bound) {
      forall k | 0 <= k < |idx| ensures Within(m.closes[idx[k]][c], m.lows[idx[k]][d], bound) {
        assert MemberDd(m, idx[k], from, to) <= bound;
        WindowDdAtMost(m.closes[idx[k]], m.lows[idx[k]], from, to, bound);
      }
      SumKeepsWithin(m, idx, days, c, d, bound);
    }
    WindowDdAtMost(closes, lows, from, to, bound);
  }

  // ----- Lows of either sign

  ghost function PeakRow(closes: seq<real>, days: nat, from: nat, to: nat): (peaks: seq<real>)
    requires 1 <= from < to <= days
    ensures |closes| == days ==> |peaks| == days
  {
    if |closes| != days then []
    else seq(days, d requires 0 <= d < days => if from <= d < to then PeakBefore(closes, from, to, d) else 0.0)
  }

  ghost function PeakRows(rows: seq<seq<real>>, days: nat, from: nat, to: nat): (peaks: seq<seq<real>>)
    requires 1 <= from < to <= days
    ensures |peaks| == |rows|
  {
    seq(|rows|, i requires 0 <= i < |rows| => PeakRow(rows[i], days, from, to))
  }

  /** Lows that a daily table can hold: a day's lowest equity is at most its close. */
  ghost predicate DailyLows(closes: seq<seq<real>>, lows: seq<seq<real>>, idx: seq<nat>, days: nat) {
    && Selects(closes, idx, days) && Selects(lows, idx, days)
    && forall k, d :: 0 <= k < |idx| && 0 <= d < days ==> lows[idx[k]][d] <= closes[idx[k]][d]
  }

  /** Days that never trade below their close, except that day `bad` falls to minus the peak before it. */
  ghost function FlippedRow(closes: seq<real>, days: nat, from: nat, to: nat, bad: nat): (lows: seq<real>)
    requires 1 <= from <= bad < to <= days
    ensures |closes| == days ==> |lows| == days
  {
    if |closes| != days then []
    else seq(days, d requires 0 <= d < days => if d == bad then -PeakBefore(closes, from, to, bad) else closes[d])
  }

  ghost function Flipped(rows: seq<seq<real>>, days: nat, from: nat, to: nat, bad: nat): (lows: seq<seq<real>>)
    requires 1 <= from <= bad < to <= days
    ensures |lows| == |rows|
  {
    seq(|rows|, i requires 0 <= i < |rows| => FlippedRow(rows[i], days, from, to, bad))
  }

  ghost predicate PositiveRows(closes: seq<seq<real>>, idx: seq<nat>, days: nat, from: nat, to: nat) {
    && Selects(closes, idx, days) && 1 <= from < to <= days
    && forall k :: 0 <= k < |idx| ==> PositiveOn(closes[idx[k]], from - 1, to)
  }

  /** On every day of the window the peak of the summed closes is the sum of the members' peaks. */
  ghost predicate PeaksAdd(closes: seq<seq<real>>, idx: seq<nat>, days: nat, from: nat, to: nat)
    requires PositiveRows(closes, idx, days, from, to)
  {
    forall d :: from <= d < to ==>
      PeakBefore(Summed(closes, idx, days), from, to, d) == SumOn(PeakRows(closes, days, from, to), idx, days, d)
  }

  lemma CloseBelowPeak(closes: seq<real>, from: nat, to: nat, c: nat, d: nat)
    requires 1 <= from <= d < to <= |closes| && from - 1 <= c < d
    ensures closes[c] <= PeakBefore(closes, from, to, d)
  {
    PeakIsMaximum(closes[from - 1..to - 1], d - from);
    assert closes[from - 1..to - 1][c - (from - 1)] == closes[c];
  }

  lemma {:induction false} SumOfCloses(closes: seq<seq<real>>, idx: seq<nat>, days: nat, from: nat, to: nat, c: nat,
                                       d: nat)
    requires PositiveRows(closes, idx, days, from, to) && from - 1 <= c < d < to
    ensures SumOn(closes, idx, days, c) <= SumOn(PeakRows(closes, days, from, to), idx, days, d)
  {
    hide PeakBefore;
    if idx != [] {
      SumOfCloses(closes, idx[..|idx| - 1], days, from, to, c, d);
      CloseBelowPeak(closes[idx[|idx| - 1]], from, to, c, d);
    }
  }

  /** The peak of the sum never exceeds the sum of the peaks. */
  lemma PeakOfSum(closes: seq<seq<real>>, idx: seq<nat>, days: nat, from: nat, to: nat, d: nat)
    requires PositiveRows(closes, idx, days, from, to) && from <= d < to
    ensures PeakBefore(Summed(closes, idx, days), from, to, d) <= SumOn(PeakRows(closes, days, from, to), idx, days, d)
  {
    var sum := Summed(closes, idx, days);
    var window := sum[from - 1..to - 1];
    assert PeakBefore(sum, from, to, d) == Peak(window, d - from);
    hide Peak, PeakBefore, PeakRows, SumOn;
    PeakIsMaximum(window, d - from);
    var j :| 0 <= j <= d - from && window[j] == Peak(window, d - from);
    assert window[j] == sum[from - 1 + j] == SumOn(closes, idx, days, from - 1 + j);
    SumOfCloses(closes, idx, days, from, to, from - 1 + j, d);
  }

  lemma {:induction false} SumFlipped(closes: seq<seq<real>>, idx: seq<nat>, days: nat, from: nat, to: nat, bad: nat)
    requires Selects(closes, idx, days) && 1 <= from <= bad < to <= days
    ensures SumOn(Flipped(closes, days, from, to, bad), idx, days, bad)
         == -SumOn(PeakRows(closes, days, from, to), idx, days, bad)
  {
    hide PeakBefore;
    if idx != [] {
      SumFlipped(closes, idx[..|idx| - 1], days, from, to, bad);
    }
  }

  lemma SelectedWindows(closes: seq<seq<real>>, lows: seq<seq<real>>, idx: seq<nat>, days: nat, from: nat, to: nat)
    requires PositiveRows(closes, idx, days, from, to) && Selects(lows, idx, days)
    ensures AllWindows(Curves(closes, lows), idx, days, from, to)
  {
  }

  /** Where the peaks add up the law holds for lows of either sign. */
  lemma AddedPeaksDiversify(m: Curves, idx: seq<nat>, days: nat, from: nat, to: nat)
    requires idx != [] && AllWindows(m, idx, days, from, to) && PositiveRows(m.closes, idx, days, from, to)
    requires PeaksAdd(m.closes, idx, days, from, to)
    ensures Diversifies(m, idx, days, from, to)
  {
    SummedIsWindow(m, idx, days, from, to);
    var closes, lows := Summed(m.closes, idx, days), Summed(m.lows, idx, days);
    var worst := DeepestMember(m, idx, days, from, to);
    var bound := MemberDd(m, worst, from, to);
    WindowDdIsNatural(m.closes[worst], m.lows[worst], from, to);
    var peaks := Curves(PeakRows(m.closes, days, from, to), m.lows);
    forall d | from <= d < to ensures Within(PeakBefore(closes, from, to, d), lows[d], bound) {
      forall k | 0 <= k < |idx| ensures Within(peaks.closes[idx[k]][d], m.lows[idx[k]][d], bound) {
        assert MemberDd(m, idx[k], from, to) <= bound;
        WindowDdByPeaks(m.closes[idx[k]], m.lows[idx[k]], from, to, bound);
      }
      SumKeepsWithin(peaks, idx, days, d, d, bound);
    }
    WindowDdByPeaks(closes, lows, from, to, bound);
  }

  /** Such lows give every member a drawdown of at most 200 percent. */
  lemma FlippedMember(closes: seq<real>, days: nat, from: nat, to: nat, bad: nat)
    requires 1 <= from <= bad < to <= days && |closes| == days && PositiveOn(closes, from - 1, to)
    ensures WindowDd(closes, FlippedRow(closes, days, from, to, bad), from, to) <= 200.0
  {
    var lows := FlippedRow(closes, days, from, to, bad);
    forall d | from <= d < to ensures Within(PeakBefore(closes, from, to, d), lows[d], 200.0) {
      PeakBeforePositive(closes, lows, from, to, d);
    }
    WindowDdByPeaks(closes, lows, from, to, 200.0);
  }

  lemma FlippedAreDailyLows(closes: seq<seq<real>>, idx: seq<nat>, days: nat, from: nat, to: nat, bad: nat)
    requires PositiveRows(closes, idx, days, from, to) && from <= bad < to
    ensures DailyLows(closes, Flipped(closes, days, from, to, bad), idx, days)
  {
    var lows := Flipped(closes, days, from, to, bad);
    forall k, d | 0 <= k < |idx| && 0 <= d < days ensures lows[idx[k]][d] <= closes[idx[k]][d] {
      PeakBeforePositive(closes[idx[k]], closes[idx[k]], from, to, bad);
    }
  }

  lemma LawNeedsPeaks(closes: seq<seq<real>>, idx: seq<nat>, days: nat, from: nat, to: nat, bad: nat)
    requires idx != [] && PositiveRows(closes, idx, days, from, to) && from <= bad < to
    requires DiversifiesWith(closes, Flipped(closes, days, from, to, bad), idx, days, from, to)
    ensures PeakBefore(Summed(closes, idx, days), from, to, bad)
         == SumOn(PeakRows(closes, days, from, to), idx, days, bad)
  {
    var m := Curves(closes, Flipped(closes, days, from, to, bad));
    var sumCloses, sumLows := Summed(closes, idx, days), Summed(m.lows, idx, days);
    var k :| 0 <= k < |idx| && WindowDd(sumCloses, sumLows, from, to) <= MemberDd(m, idx[k], from, to);
    hide WindowDd, PeakBefore, PeakRows, FlippedRow;
    FlippedMember(closes[idx[k]], days, from, to, bad);
    WindowDdByPeaks(sumCloses, sumLows, from, to, 200.0);
    assert Within(PeakBefore(sumCloses, from, to, bad), sumLows[bad], 200.0);
    SumFlipped(closes, idx, days, from, to, bad);
    PeakOfSum(closes, idx, days, from, to, bad);
  }

  ghost predicate DiversifiesWith(closes: seq<seq<real>>, lows: seq<seq<real>>, idx: seq<nat>, days: nat, from: nat,
                                  to: nat) {
    AllWindows(Curves(closes, lows), idx, days, from, to) && Diversifies(Curves(closes, lows), idx, days, from, to)
  }

  /** For given positive closes the law holds whatever the days' lows are, negative ones included, if
      and only if on every day of the window the members' peaks add up to the peak of the sum. */
  lemma DiversifiesForAllLows(closes: seq<seq<real>>, idx: seq<nat>, days: nat, from: nat, to: nat)
    requires idx != [] && PositiveRows(closes, idx, days, from, to)
    ensures (forall lows :: DailyLows(closes, lows, idx, days) ==> DiversifiesWith(closes, lows, idx, days, from, to))
            <==> PeaksAdd(closes, idx, days, from, to)
  {
    hide Diversifies, PeakBefore;
    if PeaksAdd(closes, idx, days, from, to) {
      forall lows | DailyLows(closes, lows, idx, days) ensures DiversifiesWith(closes, lows, idx, days, from, to) {
        SelectedWindows(closes, lows, idx, days, from, to);
        AddedPeaksDiversify(Curves(closes, lows), idx, days, from, to);
      }
    }
    if forall lows :: DailyLows(closes, lows, idx, days) ==> DiversifiesWith(closes, lows, idx, days, from, to) {
      forall d | from <= d < to
        ensures PeakBefore(Summed(closes, idx, days), from, to, d)
          == SumOn(PeakRows(closes, days, from, to), idx, days, d)
      {
        FlippedAreDailyLows(closes, idx, days, from, to, d);
        LawNeedsPeaks(closes, idx, days, from, to, d);
      }
    }
  }

  lemma TwoDayWindow(closes: seq<real>, lows: seq<real>)
    requires |closes| == |lows| == 3 && PositiveOn(closes, 0, 3)
    ensures IsWindow(closes, lows, 1, 3)
    ensures WindowDd(closes, lows, 1, 3)
      == Max(DropPct(closes[0], lows[1]), DropPct(Max(closes[0], closes[1]), lows[2]))
  {
    WindowPrevious(closes, lows, 1, 3);
    var prev := closes[0..2];
    assert Peak(prev, 0) == closes[0] && Peak(prev, 1) == Max(closes[0], closes[1]);
    var path := PathDd(closes[0], closes[1..3], lows[1..3]);
    assert Peak(path, 1) == Max(Peak(path, 0), path[1]) && Peak(path, 0) == path[0];
  }

  lemma TwoMembers(rows: seq<seq<real>>, idx: seq<nat>, days: nat)
    requires Selects(rows, idx, days) && |idx| == 2
    ensures forall day :: 0 <= day < days ==> SumOn(rows, idx, days, day) == rows[idx[0]][day] + rows[idx[1]][day]
  {
    var one := idx[..1];
    assert one[..0] == [];
    forall day | 0 <= day < days ensures SumOn(rows, idx, days, day) == rows[idx[0]][day] + rows[idx[1]][day] {
      assert SumOn(rows, one, days, day) == SumOn(rows, [], days, day) + rows[idx[0]][day];
    }
  }

  /** Without the sign of the lows the law fails: two accounts that both fall below zero lose a
      larger share of their sum (2 / 1.1 + 1 times) than either loses of its own (2 times). */
  lemma NegativeLowsBreakTheLaw(m: Curves, idx: seq<nat>)
    requires m == Curves([[1.0, 10.0, 1.0], [10.0, 1.0, 1.0]], [[0.0, 0.0, -10.0], [0.0, 0.0, -10.0]]) && idx == [0, 1]
    ensures DailyLows(m.closes, m.lows, idx, 3)
    ensures IsWindow(m.closes[0], m.lows[0], 1, 3) && MemberDd(m, 0, 1, 3) == 200.0
    ensures IsWindow(m.closes[1], m.lows[1], 1, 3) && MemberDd(m, 1, 1, 3) == 200.0
    ensures IsWindow(Summed(m.closes, idx, 3), Summed(m.lows, idx, 3), 1, 3)
    ensures WindowDd(Summed(m.closes, idx, 3), Summed(m.lows, idx, 3), 1, 3) > 281.0
  {
    TwoDayWindow(m.closes[0], m.lows[0]);
    TwoDayWindow(m.closes[1], m.lows[1]);
    var closes, lows := Summed(m.closes, idx, 3), Summed(m.lows, idx, 3);
    TwoMembers(m.closes, idx, 3);
    TwoMembers(m.lows, idx, 3);
    assert closes == [11.0, 11.0, 2.0] && lows == [0.0, 0.0, -20.0];
    TwoDayWindow(closes, lows);
  }
}
