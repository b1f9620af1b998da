/** Running peaks and the drawdowns below them: the one-pass forms that the scripts compute, and
    their meaning as "an earlier value minus a later one". */
module Drawdown {

  function Max(x: real, y: real): real {
    if x >= y then x else y
  }

  /** `np.maximum.accumulate(s)[k]`. */
  function Peak(s: seq<real>, k: nat): real
    requires k < |s|
  {
    if k == 0 then s[0] else Max(Peak(s, k - 1), s[k])
  }

  lemma {:induction false} PeakIsMaximum(s: seq<real>, k: nat)
    requires k < |s|
    ensures forall j :: 0 <= j <= k ==> s[j] <= Peak(s, k)
    ensures exists j :: 0 <= j <= k && s[j] == Peak(s, k)
  {
    if k == 0 {
      assert s[0] == Peak(s, 0);
    } else {
      PeakIsMaximum(s, k - 1);
      var j :| 0 <= j <= k - 1 && s[j] == Peak(s, k - 1);
      assert s[j] == Peak(s, k) || s[k] == Peak(s, k);
    }
  }

  /** The distance below the running peak. */
  function Drop(s: seq<real>, k: nat): real
    requires k < |s|
  {
    Peak(s, k) - s[k]
  }

  /** `np.argmax` of the drops among the first `n`: the first position of the largest one. */
  function DeepestAmong(s: seq<real>, n: nat): (j: nat)
    requires 0 < n <= |s|
    ensures j < n
  {
    if n == 1 then 0
    else
      var j := DeepestAmong(s, n - 1);
      if Drop(s, n - 1) > Drop(s, j) then n - 1 else j
  }

  lemma {:induction false} DeepestIsFirstMaximum(s: seq<real>, n: nat)
    requires 0 < n <= |s|
    ensures forall k :: 0 <= k < n ==> Drop(s, k) <= Drop(s, DeepestAmong(s, n))
    ensures forall k :: 0 <= k < DeepestAmong(s, n) ==> Drop(s, k) < Drop(s, DeepestAmong(s, n))
  {
    if n > 1 {
      DeepestIsFirstMaximum(s, n - 1);
    }
  }

  /** The absolute and the percentage drawdown, both read at the deepest position. */
  function Deepest(s: seq<real>): (real, real)
    requires s != []
  {
    var j := DeepestAmong(s, |s|);
    (Drop(s, j), if Peak(s, j) != 0.0 then Drop(s, j) / Peak(s, j) * 100.0 else 0.0)
  }

  /** The absolute drawdown is the largest fall from any value to any later one. */
  lemma AbsoluteIsLargestFall(s: seq<real>)
    requires s != []
    ensures forall i, j :: 0 <= i <= j < |s| ==> s[i] - s[j] <= Deepest(s).0
    ensures exists i, j :: 0 <= i <= j < |s| && s[i] - s[j] == Deepest(s).0
    ensures Deepest(s).0 >= 0.0
  {
    DeepestIsFirstMaximum(s, |s|);
    forall i, j | 0 <= i <= j < |s| ensures s[i] - s[j] <= Deepest(s).0 {
      PeakIsMaximum(s, j);
      assert Drop(s, j) <= Deepest(s).0;
    }
    var j := DeepestAmong(s, |s|);
    PeakIsMaximum(s, j);
    var i :| 0 <= i <= j && s[i] == Peak(s, j);
    assert s[i] - s[j] == Deepest(s).0;
    PeakIsMaximum(s, 0);
    assert Drop(s, 0) == 0.0;
  }

  /** The fall from `i` to `j` is the deepest, the first of that depth, and starts at the highest value before `j`. */
  ghost predicate IsFirstDeepestFall(s: seq<real>, i: nat, j: nat) {
    && i <= j < |s| && (forall h :: 0 <= h <= j ==> s[h] <= s[i])
    && (forall h, k :: 0 <= h <= k < |s| ==> s[h] - s[k] <= s[i] - s[j])
    && (forall h, k :: 0 <= h <= k < j ==> s[h] - s[k] < s[i] - s[j])
  }

  ghost predicate IsPercent(percent: real, part: real, whole: real) {
    if whole == 0.0 then percent == 0.0 else percent * whole == 100.0 * part
  }

  /** The percentage drawdown is the first deepest fall in percent of the value it starts from, and zero when that
      value is zero. */
  lemma PercentageMeans(s: seq<real>) returns (i: nat, j: nat)
    requires s != []
    ensures IsFirstDeepestFall(s, i, j) && Deepest(s).0 == s[i] - s[j]
    ensures IsPercent(Deepest(s).1, s[i] - s[j], s[i])
  {
    j := DeepestAmong(s, |s|);
    PeakIsMaximum(s, j);
    i :| 0 <= i <= j && s[i] == Peak(s, j);
    FirstDeepest(s, i, j);
    PercentOf(s[i] - s[j], s[i]);
    hide IsPercent, IsFirstDeepestFall;
  }

  lemma FirstDeepest(s: seq<real>, i: nat, j: nat)
    requires s != [] && j == DeepestAmong(s, |s|) && i <= j && s[i] == Peak(s, j)
    ensures IsFirstDeepestFall(s, i, j)
  {
    DeepestIsFirstMaximum(s, |s|);
    PeakIsMaximum(s, j);
    AbsoluteIsLargestFall(s);
    forall h, k | 0 <= h <= k < j ensures s[h] - s[k] < s[i] - s[j] {
      PeakIsMaximum(s, k);
      assert Drop(s, k) < Drop(s, j);
    }
    hide Peak, DeepestAmong;
  }

  lemma PercentOf(part: real, whole: real)
    ensures IsPercent(if whole != 0.0 then part / whole * 100.0 else 0.0, part, whole)
  {
    if whole != 0.0 {
      var share := part / whole;
      assert share * whole == part;
    }
  }

  /** A path that only revisits another path's values, in the other path's order, falls no deeper. */
  lemma ResampledFallsNoDeeper(s: seq<real>, t: seq<real>, at: seq<nat>)
    requires s != [] && t != [] && |at| == |t|
    requires forall k :: 0 <= k < |t| ==> at[k] < |s| && t[k] == s[at[k]]
    requires forall j, k :: 0 <= j <= k < |t| ==> at[j] <= at[k]
    ensures Deepest(t).0 <= Deepest(s).0
  {
    AbsoluteIsLargestFall(t);
    var i, j :| 0 <= i <= j < |t| && t[i] - t[j] == Deepest(t).0;
    AbsoluteIsLargestFall(s);
    assert s[at[i]] - s[at[j]] <= Deepest(s).0;
  }

  ghost predicate PositiveOn(s: seq<real>, lo: nat, hi: nat)
    requires hi <= |s|
  {
    forall k :: lo <= k < hi ==> s[k] > 0.0
  }

  lemma PeakPositive(s: seq<real>, k: nat)
    requires k < |s| && PositiveOn(s, 0, |s|)
    ensures Peak(s, k) > 0.0
  {
    PeakIsMaximum(s, k);
  }
}
