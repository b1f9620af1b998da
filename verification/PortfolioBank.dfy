/** The smallest bank that keeps a gain path's drawdown within a limit, and how it depends on the
    weights that the path is mixed from. */
module PortfolioBank {
  import opened Drawdown
  import opened Sorting
  import opened Wrappers

  datatype BankError = MaxDdOutOfRange | PathEmpty | WeightNegative | DeltaShapeMismatch | DeltaEmpty

  /** The running maximum of the first `n` gains, never below the start. */
  function High(path: seq<real>, n: nat): real
    requires n <= |path|
  {
    if n == 0 then 0.0 else Max(High(path, n - 1), path[n - 1])
  }

  /** With bank `bank`, none of the first `n` gains falls more than the fraction `m` below an earlier equity. */
  ghost predicate Covers(path: seq<real>, m: real, bank: real, n: nat)
    requires n <= |path|
  {
    bank >= 0.0 && forall k :: 0 <= k < n ==> Holds(path, m, bank, k)
  }

  /** The loss from the start, and from each gain up to the k-th, is at most the fraction `m` of the equity there. */
  ghost predicate Holds(path: seq<real>, m: real, bank: real, k: nat)
    requires k < |path|
  {
    -path[k] <= m * bank && forall i :: 0 <= i <= k ==> path[i] - path[k] <= m * (bank + path[i])
  }

  /** The running maximum is the start or one of the gains, and none of them exceeds it. */
  lemma {:induction false} HighIsMaximum(path: seq<real>, n: nat)
    requires n <= |path|
    ensures High(path, n) >= 0.0
    ensures forall j :: 0 <= j < n ==> path[j] <= High(path, n)
    ensures High(path, n) == 0.0 || exists j :: 0 <= j < n && path[j] == High(path, n)
  {
    if n > 0 {
      HighIsMaximum(path, n - 1);
    }
  }

  /** The fall from `peak` to `gain` is within the limit. */
  ghost predicate Within(peak: real, gain: real, m: real, bank: real) {
    peak - gain <= m * (bank + peak)
  }

  lemma LowerPeakHolds(low: real, high: real, gain: real, m: real, bank: real)
    requires m <= 1.0 && low <= high && Within(high, gain, m, bank)
    ensures Within(low, gain, m, bank)
  {
    assert (1.0 - m) * (high - low) >= 0.0;
  }

  lemma HoldsIsWithin(path: seq<real>, m: real, bank: real, k: nat)
    requires k < |path|
    ensures (Holds(path, m, bank, k)
        <==> Within(0.0, path[k], m, bank) && forall i :: 0 <= i <= k ==> Within(path[i], path[k], m, bank))
  {
  }

  /** Losses from all earlier equities are within the limit exactly when the one from the peak is. */
  lemma HoldsAtPeak(path: seq<real>, m: real, bank: real, k: nat)
    requires k < |path| && 0.0 < m <= 1.0
    ensures Holds(path, m, bank, k) <==> Within(High(path, k + 1), path[k], m, bank)
  {
    var high := High(path, k + 1);
    HighIsMaximum(path, k + 1);
    HoldsIsWithin(path, m, bank, k);
    hide High, Within, Holds;
    if Within(high, path[k], m, bank) {
      LowerPeakHolds(0.0, high, path[k], m, bank);
      forall i | 0 <= i <= k ensures Within(path[i], path[k], m, bank) {
        LowerPeakHolds(path[i], high, path[k], m, bank);
      }
    }
  }

  function Need(high: real, gain: real, m: real): real
    requires m != 0.0
  {
    ((1.0 - m) * high - gain) / m
  }

  /** The largest need met among the first `n` gains. */
  function Bank(path: seq<real>, m: real, n: nat): real
    requires n <= |path| && m != 0.0
  {
    if n == 0 then 0.0 else Max(Bank(path, m, n - 1), Need(High(path, n), path[n - 1], m))
  }

  lemma NeedMeansHolds(high: real, gain: real, m: real, bank: real)
    requires m > 0.0
    ensures Need(high, gain, m) <= bank <==> Within(high, gain, m, bank)
  {
    var need := Need(high, gain, m);
    assert m * need == (1.0 - m) * high - gain;
    assert m * (bank + high) == m * bank + m * high && (1.0 - m) * high == high - m * high;
    if need <= bank {
      assert m * (bank - need) >= 0.0;
    } else {
      assert m * (need - bank) > 0.0;
    }
  }

  /** A bank suffices exactly when it is at least `Bank`: the function's promise of the smallest B. */
  lemma {:induction false} BankIsLeast(path: seq<real>, m: real, n: nat, bank: real)
    requires n <= |path| && 0.0 < m <= 1.0
    ensures Covers(path, m, bank, n) <==> bank >= Bank(path, m, n)
  {
    if n > 0 {
      hide Holds, High, Need, Within;
      BankIsLeast(path, m, n - 1, bank);
      HoldsAtPeak(path, m, bank, n - 1);
      NeedMeansHolds(High(path, n), path[n - 1], m, bank);
      CoversStep(path, m, bank, n);
    }
  }

  lemma CoversStep(path: seq<real>, m: real, bank: real, n: nat)
    requires 0 < n <= |path|
    ensures Covers(path, m, bank, n) <==> Covers(path, m, bank, n - 1) && Holds(path, m, bank, n - 1)
  {
    hide Holds;
  }

  method BankForPath(path: seq<real>, m: real) returns (result: Result<real, BankError>)
    ensures result.Ok? <==> 0.0 < m < 1.0 && path != []
    ensures result.Ok? ==> forall bank :: Covers(path, m, bank, |path|) <==> bank >= result.value
    ensures result.Ok? ==> result.value == Bank(path, m, |path|)
    ensures result.Err? ==> result.error == if 0.0 < m < 1.0 then PathEmpty else MaxDdOutOfRange
  {
    if !(0.0 < m < 1.0) {
      return Err(MaxDdOutOfRange);
    }
    if path == [] {
      return Err(PathEmpty);
    }
    hide Covers, Need;
    var high, required := 0.0, 0.0;
    for k := 0 to |path|
      invariant high == High(path, k)
      invariant required == Bank(path, m, k) >= 0.0
    {
      high := Max(high, path[k]);
      required := Max(required, Need(high, path[k], m));
    }
    forall bank ensures Covers(path, m, bank, |path|) <==> bank >= required {
      BankIsLeast(path, m, |path|, bank);
    }
    result := Ok(Max(0.0, required));
  }

  // ----- The gain path of a weight vector

  /** What one step of normalised deltas earns under the weights. */
  function Dot(row: seq<real>, x: seq<real>): real
    requires |row| == |x|
  {
    if x == [] then 0.0 else Dot(row[..|x| - 1], x[..|x| - 1]) + row[|x| - 1] * x[|x| - 1]
  }

  predicate Shaped(rows: seq<seq<real>>, width: nat) {
    forall k :: 0 <= k < |rows| ==> |rows[k]| == width
  }

  /** The gains accumulated over the first `n` steps. */
  function Gain(rows: seq<seq<real>>, x: seq<real>, n: nat): real
    requires Shaped(rows, |x|) && n <= |rows|
  {
    if n == 0 then 0.0 else Gain(rows, x, n - 1) + Dot(rows[n - 1], x)
  }

  function GainPath(rows: seq<seq<real>>, x: seq<real>): (path: seq<real>)
    requires Shaped(rows, |x|)
    ensures |path| == |rows|
  {
    seq(|rows|, k requires 0 <= k < |rows| => Gain(rows, x, k + 1))
  }

  lemma {:induction false} TotalsMove(totals: seq<real>, row: seq<real>, x: seq<real>, moved: seq<real>)
    requires |totals| == |row| == |x| == |moved|
    requires forall j :: 0 <= j < |x| ==> moved[j] == totals[j] + row[j] * x[j]
    ensures Total(moved) == Total(totals) + Dot(row, x)
  {
    if x != [] {
      var n := |x| - 1;
      TotalsMove(totals[..n], row[..n], x[..n], moved[..n]);
      assert moved[n] == totals[n] + row[n] * x[n];
    }
  }

  lemma {:induction false} TotalOfZeros(n: nat)
    ensures Total(seq(n, _ => 0.0)) == 0.0
  {
    if n > 0 {
      TotalOfZeros(n - 1);
      assert seq(n, _ => 0.0)[..n - 1] == seq(n - 1, _ => 0.0);
    }
  }

  /** `_path`: one running total per member, summed after every step. */
  method PathOf(rows: seq<seq<real>>, x: seq<real>) returns (result: Result<seq<real>, BankError>)
    ensures result.Ok? <==> (forall j :: 0 <= j < |x| ==> x[j] >= 0.0) && Shaped(rows, |x|) && rows != []
    ensures result.Ok? ==> result.value == GainPath(rows, x)
    ensures (exists j :: 0 <= j < |x| && x[j] < 0.0) ==> result == Err(WeightNegative)
    ensures rows == [] && (forall j :: 0 <= j < |x| ==> x[j] >= 0.0) ==> result == Err(DeltaEmpty)
    ensures !Shaped(rows, |x|) && (forall j :: 0 <= j < |x| ==> x[j] >= 0.0) ==> result == Err(DeltaShapeMismatch)
  {
    if exists j :: 0 <= j < |x| && x[j] < 0.0 {
      return Err(WeightNegative);
    }
    var totals := seq(|x|, _ => 0.0);
    var path: seq<real> := [];
    TotalOfZeros(|x|);
    for k := 0 to |rows|
      invariant |totals| == |x| && |path| == k
      invariant Shaped(rows[..k], |x|)
      invariant Total(totals) == Gain(rows[..k], x, k)
      invariant path == GainPath(rows[..k], x)
    {
      if |rows[k]| != |x| {
        return Err(DeltaShapeMismatch);
      }
      var moved := seq(|x|, j requires 0 <= j < |x| => totals[j] + rows[k][j] * x[j]);
      TotalsMove(totals, rows[k], x, moved);
      totals := moved;
      path := path + [Total(totals)];
      GainPrefix(rows, x, k);
    }
    assert rows[..|rows|] == rows;
    if path == [] {
      return Err(DeltaEmpty);
    }
    result := Ok(path);
  }

  lemma GainPrefix(rows: seq<seq<real>>, x: seq<real>, k: nat)
    requires k < |rows| && Shaped(rows[..k], |x|) && |rows[k]| == |x|
    ensures Shaped(rows[..k + 1], |x|)
    ensures Gain(rows[..k + 1], x, k + 1) == Gain(rows[..k], x, k) + Dot(rows[k], x)
    ensures GainPath(rows[..k + 1], x) == GainPath(rows[..k], x) + [Gain(rows[..k + 1], x, k + 1)]
  {
    forall n | 0 <= n <= k ensures Gain(rows[..k + 1], x, n) == Gain(rows[..k], x, n) {
      GainAgrees(rows[..k + 1], rows[..k], x, n);
    }
  }

  lemma {:induction false} GainAgrees(rows: seq<seq<real>>, shorter: seq<seq<real>>, x: seq<real>, n: nat)
    requires Shaped(rows, |x|) && Shaped(shorter, |x|) && n <= |shorter| <= |rows| && shorter <= rows
    ensures Gain(rows, x, n) == Gain(shorter, x, n)
  {
    if n > 0 {
      GainAgrees(rows, shorter, x, n - 1);
    }
  }

  // ----- The path is linear in the weights

  function Combo(a: real, x: real, b: real, y: real): real {
    a * x + b * y
  }

  /** `z` is the combination of `x` and `y`, entry by entry. */
  ghost predicate Mix(z: seq<real>, a: real, x: seq<real>, b: real, y: seq<real>) {
    |z| == |x| == |y| && forall k :: 0 <= k < |z| ==> z[k] == Combo(a, x[k], b, y[k])
  }

  lemma ComboSums(a: real, sx: real, tx: real, b: real, sy: real, ty: real)
    ensures Combo(a, sx, b, sy) + Combo(a, tx, b, ty) == Combo(a, sx + tx, b, sy + ty)
  {
  }

  lemma ComboProduct(r: real, a: real, x: real, b: real, y: real)
    ensures r * Combo(a, x, b, y) == Combo(a, r * x, b, r * y)
  {
  }

  lemma ComboMonotone(a: real, x: real, x': real, b: real, y: real, y': real)
    requires a >= 0.0 && b >= 0.0 && x <= x' && y <= y'
    ensures Combo(a, x, b, y) <= Combo(a, x', b, y')
  {
    assert a * (x' - x) >= 0.0 && b * (y' - y) >= 0.0;
  }

  lemma {:induction false} DotLinear(row: seq<real>, z: seq<real>, a: real, x: seq<real>, b: real, y: seq<real>)
    requires Mix(z, a, x, b, y) && |row| == |x|
    ensures Dot(row, z) == Combo(a, Dot(row, x), b, Dot(row, y))
  {
    if x != [] {
      var n := |x| - 1;
      DotLinear(row[..n], z[..n], a, x[..n], b, y[..n]);
      ComboProduct(row[n], a, x[n], b, y[n]);
      ComboSums(a, Dot(row[..n], x[..n]), row[n] * x[n], b, Dot(row[..n], y[..n]), row[n] * y[n]);
      hide Combo;
    }
  }

  lemma {:induction false} GainLinear(rows: seq<seq<real>>, z: seq<real>, a: real, x: seq<real>, b: real, y: seq<real>,
                                      n: nat)
    requires Mix(z, a, x, b, y) && Shaped(rows, |x|) && n <= |rows|
    ensures Gain(rows, z, n) == Combo(a, Gain(rows, x, n), b, Gain(rows, y, n))
  {
    if n > 0 {
      hide Combo, Dot;
      GainLinear(rows, z, a, x, b, y, n - 1);
      DotLinear(rows[n - 1], z, a, x, b, y);
      ComboSums(a, Gain(rows, x, n - 1), Dot(rows[n - 1], x), b, Gain(rows, y, n - 1), Dot(rows[n - 1], y));
    }
  }

  lemma PathLinear(rows: seq<seq<real>>, z: seq<real>, a: real, x: seq<real>, b: real, y: seq<real>)
    requires Mix(z, a, x, b, y) && Shaped(rows, |x|)
    ensures Mix(GainPath(rows, z), a, GainPath(rows, x), b, GainPath(rows, y))
  {
    hide Combo, Gain;
    var pz, px, py := GainPath(rows, z), GainPath(rows, x), GainPath(rows, y);
    forall k | 0 <= k < |rows| ensures pz[k] == Combo(a, px[k], b, py[k]) {
      GainLinear(rows, z, a, x, b, y, k + 1);
    }
  }

  /** All weight on one member. */
  ghost predicate AllOn(x: seq<real>, j: nat) {
    j < |x| && x[j] == 1.0 && forall i :: 0 <= i < |x| && i != j ==> x[i] == 0.0
  }

  lemma {:induction false} DotOfZeros(row: seq<real>, x: seq<real>)
    requires |row| == |x| && forall i :: 0 <= i < |x| ==> x[i] == 0.0
    ensures Dot(row, x) == 0.0
  {
    if x != [] {
      DotOfZeros(row[..|x| - 1], x[..|x| - 1]);
    }
  }

  lemma {:induction false} DotOfUnit(row: seq<real>, x: seq<real>, j: nat)
    requires |row| == |x| && AllOn(x, j)
    ensures Dot(row, x) == row[j]
  {
    var n := |x| - 1;
    if j == n {
      DotOfZeros(row[..n], x[..n]);
    } else {
      DotOfUnit(row[..n], x[..n], j);
    }
  }

  /** With all weight on one member the gains add up that member's deltas; linearity gives every other path. */
  lemma SinglePath(rows: seq<seq<real>>, x: seq<real>, j: nat)
    requires Shaped(rows, |x|) && AllOn(x, j)
    ensures rows != [] ==> GainPath(rows, x)[0] == rows[0][j]
    ensures forall k :: 0 < k < |rows| ==> GainPath(rows, x)[k] - GainPath(rows, x)[k - 1] == rows[k][j]
  {
    forall k | 0 <= k < |rows| ensures Dot(rows[k], x) == rows[k][j] {
      DotOfUnit(rows[k], x, j);
    }
    hide Dot;
    assert rows != [] ==> Gain(rows, x, 1) == Gain(rows, x, 0) + Dot(rows[0], x);
    forall k | 0 < k < |rows| ensures GainPath(rows, x)[k] - GainPath(rows, x)[k - 1] == rows[k][j] {
      assert Gain(rows, x, k + 1) == Gain(rows, x, k) + Dot(rows[k], x);
    }
  }

  // ----- The bank is sublinear: positively homogeneous, subadditive, convex

  /** The larger of two combined quantities is at most the combination of the larger ones. */
  lemma MaxCombo(u: real, v: real, a: real, ux: real, vx: real, b: real, uy: real, vy: real)
    requires a >= 0.0 && b >= 0.0 && u <= Combo(a, ux, b, uy) && v <= Combo(a, vx, b, vy)
    ensures Max(u, v) <= Combo(a, Max(ux, vx), b, Max(uy, vy))
  {
    ComboMonotone(a, ux, Max(ux, vx), b, uy, Max(uy, vy));
    ComboMonotone(a, vx, Max(ux, vx), b, vy, Max(uy, vy));
    hide Combo;
  }

  lemma {:induction false} HighMix(z: seq<real>, a: real, x: seq<real>, b: real, y: seq<real>, n: nat)
    requires Mix(z, a, x, b, y) && n <= |z| && a >= 0.0 && b >= 0.0
    ensures High(z, n) <= Combo(a, High(x, n), b, High(y, n))
  {
    if n > 0 {
      hide Max, Combo;
      HighMix(z, a, x, b, y, n - 1);
      MaxCombo(High(z, n - 1), z[n - 1], a, High(x, n - 1), x[n - 1], b, High(y, n - 1), y[n - 1]);
    }
  }

  function Product(r: real, x: real): real {
    r * x
  }

  lemma ProductOrder(r: real, x: real, y: real)
    requires r > 0.0
    ensures Product(r, x) <= Product(r, y) <==> x <= y
  {
    if x <= y {
      assert r * (y - x) >= 0.0;
    } else {
      assert r * (x - y) > 0.0;
    }
  }

  lemma ProductOfCombo(r: real, a: real, x: real, b: real, y: real)
    ensures Product(r, Combo(a, x, b, y)) == Combo(a, Product(r, x), b, Product(r, y))
  {
    ComboProduct(r, a, x, b, y);
  }

  lemma NeedTimes(h: real, g: real, m: real)
    requires m > 0.0
    ensures Product(m, Need(h, g, m)) == Product(1.0 - m, h) - g
  {
    var k := (1.0 - m) * h - g;
    assert k / m * m == k;
  }

  lemma NeedCombo(hz: real, gz: real, a: real, hx: real, gx: real, b: real, hy: real, gy: real, m: real)
    requires 0.0 < m < 1.0 && hz <= Combo(a, hx, b, hy) && gz == Combo(a, gx, b, gy)
    ensures Need(hz, gz, m) <= Combo(a, Need(hx, gx, m), b, Need(hy, gy, m))
  {
    hide Product, Need, Combo;
    NeedTimes(hz, gz, m);
    NeedTimes(hx, gx, m);
    NeedTimes(hy, gy, m);
    ProductOrder(1.0 - m, hz, Combo(a, hx, b, hy));
    ProductOfCombo(1.0 - m, a, hx, b, hy);
    ComboSums(a, Product(m, Need(hx, gx, m)), gx, b, Product(m, Need(hy, gy, m)), gy);
    ProductOfCombo(m, a, Need(hx, gx, m), b, Need(hy, gy, m));
    ProductOrder(m, Need(hz, gz, m), Combo(a, Need(hx, gx, m), b, Need(hy, gy, m)));
  }

  lemma {:induction false} BankMix(z: seq<real>, a: real, x: seq<real>, b: real, y: seq<real>, m: real, n: nat)
    requires Mix(z, a, x, b, y) && n <= |z| && 0.0 < m < 1.0 && a >= 0.0 && b >= 0.0
    ensures Bank(z, m, n) <= Combo(a, Bank(x, m, n), b, Bank(y, m, n))
  {
    if n > 0 {
      hide Need, Max, High, Combo;
      BankMix(z, a, x, b, y, m, n - 1);
      HighMix(z, a, x, b, y, n);
      NeedCombo(High(z, n), z[n - 1], a, High(x, n), x[n - 1], b, High(y, n), y[n - 1], m);
      MaxCombo(Bank(z, m, n - 1), Need(High(z, n), z[n - 1], m), a, Bank(x, m, n - 1), Need(High(x, n), x[n - 1], m),
               b, Bank(y, m, n - 1), Need(High(y, n), y[n - 1], m));
    }
  }

  lemma {:induction false} BankNonNegative(path: seq<real>, m: real, n: nat)
    requires n <= |path| && m != 0.0
    ensures Bank(path, m, n) >= 0.0
  {
    if n > 0 {
      BankNonNegative(path, m, n - 1);
    }
  }

  /** The bank that a weight vector requires. */
  function RequiredBank(rows: seq<seq<real>>, x: seq<real>, m: real): real
    requires Shaped(rows, |x|) && m != 0.0
  {
    Bank(GainPath(rows, x), m, |rows|)
  }

  /** A non-negative mix of two weight vectors needs at most the mix of their banks: with a = b = 1
      this is subadditivity, with a + b = 1 convexity. */
  lemma RequiredBankIsSublinear(rows: seq<seq<real>>, z: seq<real>, a: real, x: seq<real>, b: real, y: seq<real>,
                                m: real)
    requires Mix(z, a, x, b, y) && Shaped(rows, |x|) && 0.0 < m < 1.0 && a >= 0.0 && b >= 0.0
    ensures RequiredBank(rows, z, m) <= a * RequiredBank(rows, x, m) + b * RequiredBank(rows, y, m)
  {
    hide Bank, GainPath;
    PathLinear(rows, z, a, x, b, y);
    BankMix(GainPath(rows, z), a, GainPath(rows, x), b, GainPath(rows, y), m, |rows|);
  }

  /** Scaling all weights scales the bank. */
  lemma RequiredBankIsHomogeneous(rows: seq<seq<real>>, z: seq<real>, c: real, x: seq<real>, m: real)
    requires Mix(z, c, x, 0.0, x) && Shaped(rows, |x|) && 0.0 < m < 1.0 && c >= 0.0
    ensures RequiredBank(rows, z, m) == c * RequiredBank(rows, x, m)
  {
    hide RequiredBank;
    RequiredBankIsSublinear(rows, z, c, x, 0.0, x, m);
    if c > 0.0 {
      var back := 1.0 / c;
      forall k | 0 <= k < |x| ensures x[k] == Combo(back, z[k], 0.0, z[k]) {
        assert z[k] == Combo(c, x[k], 0.0, x[k]);
        Undo(c, x[k], z[k]);
      }
      RequiredBankIsSublinear(rows, x, back, z, 0.0, z, m);
      AtMostBoth(c, RequiredBank(rows, x, m), RequiredBank(rows, z, m));
    } else {
      NonNegative(rows, z, m);
    }
  }

  lemma AtMostBoth(c: real, x: real, z: real)
    requires c > 0.0 && z <= c * x && x <= (1.0 / c) * z
    ensures z == c * x
  {
    var back := 1.0 / c;
    assert c * back == 1.0;
    assert c * x <= c * (back * z);
    assert c * (back * z) == (c * back) * z;
  }

  lemma Undo(c: real, x: real, z: real)
    requires c > 0.0 && z == c * x
    ensures x == (1.0 / c) * z
  {
    assert (1.0 / c) * c == 1.0;
    assert (1.0 / c) * z == ((1.0 / c) * c) * x;
  }

  lemma NonNegative(rows: seq<seq<real>>, x: seq<real>, m: real)
    requires Shaped(rows, |x|) && m != 0.0
    ensures RequiredBank(rows, x, m) >= 0.0
  {
    BankNonNegative(GainPath(rows, x), m, |rows|);
  }
}
