/** The stationary bootstrap: circular index runs drawn from a seeded stream, and scenario batches
    that may be split across workers at will. */
module Bootstrap {
  import opened PortfolioBank
  import opened Wrappers

  // ----- Coverage masks: arbitrary-precision integers read bit by bit

  function Pow2(n: nat): (p: nat)
    ensures p >= 1
  {
    if n == 0 then 1 else 2 * Pow2(n - 1)
  }

  predicate Bit(mask: nat, i: nat) {
    if i == 0 then mask % 2 == 1 else Bit(mask / 2, i - 1)
  }

  /** `a | b`. */
  function Or(a: nat, b: nat): nat
    decreases a + b
  {
    if a == 0 then b
    else if b == 0 then a
    else 2 * Or(a / 2, b / 2) + if a % 2 == 1 || b % 2 == 1 then 1 else 0
  }

  lemma {:induction false} ZeroHasNoBits(i: nat)
    ensures !Bit(0, i)
  {
    if i > 0 {
      ZeroHasNoBits(i - 1);
    }
  }

  lemma {:induction false} OrBits(a: nat, b: nat, i: nat)
    ensures Bit(Or(a, b), i) <==> Bit(a, i) || Bit(b, i)
  {
    ZeroHasNoBits(i);
    if a > 0 && b > 0 {
      var low := if a % 2 == 1 || b % 2 == 1 then 1 else 0;
      assert Or(a, b) / 2 == Or(a / 2, b / 2) && Or(a, b) % 2 == low;
      if i > 0 {
        OrBits(a / 2, b / 2, i - 1);
      }
    }
  }

  lemma {:induction false} Pow2Bits(n: nat, i: nat)
    ensures Bit(Pow2(n), i) <==> i == n
  {
    if n == 0 {
      if i > 0 {
        ZeroHasNoBits(i - 1);
      }
    } else {
      assert Pow2(n) / 2 == Pow2(n - 1) && Pow2(n) % 2 == 0;
      if i > 0 {
        Pow2Bits(n - 1, i - 1);
      }
    }
  }

  /** Masks with the same bits are the same number. */
  lemma {:induction false} BitsDecide(a: nat, b: nat)
    requires forall i: nat :: Bit(a, i) <==> Bit(b, i)
    ensures a == b
    decreases a + b
  {
    assert Bit(a, 0) <==> Bit(b, 0);
    if a > 0 || b > 0 {
      forall i: nat ensures Bit(a / 2, i) <==> Bit(b / 2, i) {
        assert Bit(a, i + 1) <==> Bit(b, i + 1);
      }
      BitsDecide(a / 2, b / 2);
    }
  }

  lemma OrAssociative(a: nat, b: nat, c: nat)
    ensures Or(Or(a, b), c) == Or(a, Or(b, c))
  {
    forall i: nat ensures Bit(Or(Or(a, b), c), i) <==> Bit(Or(a, Or(b, c)), i) {
      OrBits(Or(a, b), c, i);
      OrBits(a, b, i);
      OrBits(a, Or(b, c), i);
      OrBits(b, c, i);
    }
    BitsDecide(Or(Or(a, b), c), Or(a, Or(b, c)));
  }

  // ----- Index paths

  /** The generator of one scenario, seeded by its triple: for every position the uniform variate
      that decides on a restart and the integer a restart would draw.  It is arbitrary. */
  datatype Stream = Stream(unit: nat -> real, draw: nat -> nat)

  datatype Triple = Triple(seed: nat, family: nat, scenario: nat)

  datatype Source = Source(at: Triple -> Stream)

  datatype BootstrapError = DivisionUndefined | ProbabilityInvalid | BankFailed(error: BankError)

  ghost predicate DrawsBelow(s: Stream, T: nat) {
    forall k :: s.draw(k) < T
  }

  /** Position `k` either restarts or continues circularly. */
  function IndexAt(s: Stream, T: nat, p: real, k: nat): nat
    requires T > 0
  {
    if k == 0 || s.unit(k) < p then s.draw(k) else (IndexAt(s, T, p, k - 1) + 1) % T
  }

  lemma IndexStep(s: Stream, T: nat, p: real, k: nat)
    requires T > 0 && k > 0
    ensures IndexAt(s, T, p, k) == if s.unit(k) < p then s.draw(k) else (IndexAt(s, T, p, k - 1) + 1) % T
    ensures Restarts(s, p, k + 1) == Restarts(s, p, k) + if s.unit(k) < p then 1 else 0
  {
  }

  function Restarts(s: Stream, p: real, n: nat): nat {
    if n <= 1 then 0 else Restarts(s, p, n - 1) + if s.unit(n - 1) < p then 1 else 0
  }

  function IndexPath(s: Stream, T: nat, p: real): (path: seq<nat>)
    requires T > 0
    ensures |path| == T
  {
    seq(T, k requires 0 <= k < T => IndexAt(s, T, p, k))
  }

  /** `_bootstrap_indices_with_stats`, past the probability check. */
  method DrawIndices(s: Stream, T: nat, p: real) returns (indices: seq<nat>, restarts: nat)
    requires T > 0
    ensures indices == IndexPath(s, T, p) && restarts == Restarts(s, p, T)
  {
    var a := new nat[T];
    a[0] := s.draw(0);
    restarts := 0;
    assert IndexAt(s, T, p, 0) == s.draw(0) && Restarts(s, p, 1) == 0;
    hide IndexAt, Restarts;
    for k := 1 to T
      invariant forall j :: 0 <= j < k ==> a[j] == IndexAt(s, T, p, j)
      invariant restarts == Restarts(s, p, k)
    {
      IndexStep(s, T, p, k);
      if s.unit(k) < p {
        a[k] := s.draw(k);
        restarts := restarts + 1;
      } else {
        a[k] := (a[k - 1] + 1) % T;
      }
    }
    indices := a[..];
  }

  ghost predicate CircularRun(run: seq<nat>, T: nat)
    requires T > 0
  {
    run != [] && forall k :: 0 < k < |run| ==> run[k] == (run[k - 1] + 1) % T
  }

  ghost function Joined(runs: seq<seq<nat>>): seq<nat> {
    if runs == [] then [] else Joined(runs[..|runs| - 1]) + runs[|runs| - 1]
  }

  /** A path of length `n` is restarts + 1 circular runs laid end to end. */
  lemma {:induction false} PathIsRuns(s: Stream, T: nat, p: real, n: nat) returns (runs: seq<seq<nat>>)
    requires 0 < n && T > 0
    ensures |runs| == Restarts(s, p, n) + 1
    ensures forall r :: 0 <= r < |runs| ==> CircularRun(runs[r], T)
    ensures Joined(runs) == seq(n, k requires 0 <= k < n => IndexAt(s, T, p, k))
  {
    var path := seq(n, k requires 0 <= k < n => IndexAt(s, T, p, k));
    if n == 1 {
      runs := [[s.draw(0)]];
      assert Joined(runs[..0]) == [];
      assert path == [s.draw(0)];
    } else {
      var shorter := PathIsRuns(s, T, p, n - 1);
      assert path == Joined(shorter) + [IndexAt(s, T, p, n - 1)];
      if s.unit(n - 1) < p {
        runs := shorter + [[s.draw(n - 1)]];
        assert runs[..|shorter|] == shorter;
      } else {
        var most, last := shorter[..|shorter| - 1], shorter[|shorter| - 1];
        assert Joined(shorter) == Joined(most) + last;
        assert last[|last| - 1] == Joined(shorter)[n - 2];
        runs := most + [last + [IndexAt(s, T, p, n - 1)]];
        assert runs[..|most|] == most;
      }
    }
  }

  // ----- The coverage of a path

  function Cover(mask: nat, indices: seq<nat>): nat {
    if indices == [] then mask else Or(Cover(mask, indices[..|indices| - 1]), Pow2(indices[|indices| - 1]))
  }

  /** Bit `i` is set exactly when it was set before or `i` was drawn. */
  lemma {:induction false} CoverBits(mask: nat, indices: seq<nat>, i: nat)
    ensures Bit(Cover(mask, indices), i) <==> Bit(mask, i) || i in indices
  {
    if indices != [] {
      var most, last := indices[..|indices| - 1], indices[|indices| - 1];
      CoverBits(mask, most, i);
      OrBits(Cover(mask, most), Pow2(last), i);
      Pow2Bits(last, i);
      assert indices == most + [last];
    }
  }

  // ----- Scenario batches

  /** What every worker holds: one increment row per vector, the history length, the family block
      lengths in days, the history step in minutes, the seed, the drawdown limit and the generator. */
  datatype Context = Context(increments: seq<seq<real>>, T: nat, families: seq<real>, step: real, seed: nat,
      drawdown: real, rng: Source)

  ghost predicate Usable(c: Context) {
    && c.T > 0
    && (forall v :: 0 <= v < |c.increments| ==> |c.increments[v]| == c.T)
    && (forall triple :: DrawsBelow(c.rng.at(triple), c.T))
  }

  function Probability(c: Context, family: nat): real
    requires family < |c.families| && c.families[family] != 0.0
  {
    c.step / (1440.0 * c.families[family])
  }

  predicate Runnable(c: Context, family: nat) {
    && family < |c.families| && c.families[family] != 0.0
    && 0.0 < Probability(c, family) <= 1.0
    && (c.increments == [] || 0.0 < c.drawdown < 1.0)
  }

  /** The index path of one scenario: it depends on the seed triple and on nothing else. */
  function ScenarioPath(c: Context, family: nat, scenario: nat): (path: seq<nat>)
    requires c.T > 0 && Runnable(c, family)
    ensures |path| == c.T
  {
    IndexPath(c.rng.at(Triple(c.seed, family, scenario)), c.T, Probability(c, family))
  }

  /** `np.cumsum(row[indices])`. */
  function Accumulated(row: seq<real>, indices: seq<nat>, n: nat): real
    requires n <= |indices| && forall i :: 0 <= i < |indices| ==> indices[i] < |row|
  {
    if n == 0 then 0.0 else Accumulated(row, indices, n - 1) + row[indices[n - 1]]
  }

  function SampledPath(row: seq<real>, indices: seq<nat>): (path: seq<real>)
    requires forall i :: 0 <= i < |indices| ==> indices[i] < |row|
    ensures |path| == |indices|
  {
    seq(|indices|, k requires 0 <= k < |indices| => Accumulated(row, indices, k + 1))
  }

  lemma PathInRange(c: Context, family: nat, scenario: nat)
    requires Usable(c) && Runnable(c, family)
    ensures forall k :: 0 <= k < c.T ==> ScenarioPath(c, family, scenario)[k] < c.T
  {
    var s := c.rng.at(Triple(c.seed, family, scenario));
    assert DrawsBelow(s, c.T);
  }

  /** The bank that one vector needs in one scenario. */
  ghost function ScenarioBank(c: Context, family: nat, scenario: nat, v: nat): real
    requires Usable(c) && Runnable(c, family) && v < |c.increments|
  {
    PathInRange(c, family, scenario);
    Bank(SampledPath(c.increments[v], ScenarioPath(c, family, scenario)), c.drawdown, c.T)
  }

  ghost function BanksOf(c: Context, family: nat, start: nat, count: nat, v: nat): (banks: seq<real>)
    requires Usable(c) && Runnable(c, family) && v < |c.increments|
    ensures |banks| == count
  {
    if count == 0 then [] else BanksOf(c, family, start, count - 1, v) + [ScenarioBank(c, family, start + count - 1, v)]
  }

  ghost function RestartsOf(c: Context, family: nat, start: nat, count: nat): nat
    requires c.T > 0 && Runnable(c, family)
  {
    if count == 0 then 0
    else RestartsOf(c, family, start, count - 1)
         + Restarts(c.rng.at(Triple(c.seed, family, start + count - 1)), Probability(c, family), c.T)
  }

  ghost function MaskOf(c: Context, family: nat, start: nat, count: nat): nat
    requires c.T > 0 && Runnable(c, family)
  {
    if count == 0 then 0 else Cover(MaskOf(c, family, start, count - 1), ScenarioPath(c, family, start + count - 1))
  }

  /** The mask records which positions some scenario of the batch visited. */
  lemma {:induction false} MaskMeaning(c: Context, family: nat, start: nat, count: nat, i: nat)
    requires c.T > 0 && Runnable(c, family)
    ensures Bit(MaskOf(c, family, start, count), i) <==>
              exists scenario :: start <= scenario < start + count && i in ScenarioPath(c, family, scenario)
  {
    if count == 0 {
      ZeroHasNoBits(i);
    } else {
      MaskMeaning(c, family, start, count - 1, i);
      CoverBits(MaskOf(c, family, start, count - 1), ScenarioPath(c, family, start + count - 1), i);
    }
  }

  datatype Batch = Batch(banks: seq<seq<real>>, restarts: nat, mask: nat)

  ghost predicate IsBatch(c: Context, family: nat, start: nat, count: nat, batch: Batch)
    requires Usable(c) && Runnable(c, family)
  {
    && |batch.banks| == |c.increments|
    && (forall v :: 0 <= v < |batch.banks| ==> batch.banks[v] == BanksOf(c, family, start, count, v))
    && batch.restarts == RestartsOf(c, family, start, count)
    && batch.mask == MaskOf(c, family, start, count)
  }

  method CoverIndices(mask: nat, indices: seq<nat>) returns (mask': nat)
    ensures mask' == Cover(mask, indices)
  {
    mask' := mask;
    for k := 0 to |indices|
      invariant mask' == Cover(mask, indices[..k])
    {
      mask' := Or(mask', Pow2(indices[k]));
      assert indices[..k + 1][..k] == indices[..k];
    }
    assert indices[..|indices|] == indices;
  }

  /** One bank per vector, appended to that vector's list. */
  method AppendBanks(c: Context, family: nat, scenario: nat, indices: seq<nat>, banks: seq<seq<real>>)
    returns (banks': seq<seq<real>>)
    requires Usable(c) && Runnable(c, family) && indices == ScenarioPath(c, family, scenario)
    requires |banks| == |c.increments|
    ensures |banks'| == |banks|
    ensures forall v :: 0 <= v < |banks| ==> banks'[v] == banks[v] + [ScenarioBank(c, family, scenario, v)]
  {
    PathInRange(c, family, scenario);
    banks' := banks;
    for v := 0 to |banks|
      invariant |banks'| == |banks|
      invariant forall u :: 0 <= u < v ==> banks'[u] == banks[u] + [ScenarioBank(c, family, scenario, u)]
      invariant forall u :: v <= u < |banks| ==> banks'[u] == banks[u]
    {
      var bank := BankForPath(SampledPath(c.increments[v], indices), c.drawdown);
      banks' := banks'[v := banks'[v] + [bank.value]];
    }
  }

  /** The loop body: scenario `start + k` joins the batch. */
  method AddScenario(c: Context, family: nat, start: nat, k: nat, p: real, banks: seq<seq<real>>, restarts: nat,
                     mask: nat)
    returns (banks': seq<seq<real>>, restarts': nat, mask': nat)
    requires Usable(c) && Runnable(c, family) && p == Probability(c, family)
    requires IsBatch(c, family, start, k, Batch(banks, restarts, mask))
    ensures IsBatch(c, family, start, k + 1, Batch(banks', restarts', mask'))
  {
    hide Restarts, ScenarioBank;
    var indices, drawn := DrawIndices(c.rng.at(Triple(c.seed, family, start + k)), c.T, p);
    restarts' := restarts + drawn;
    mask' := CoverIndices(mask, indices);
    banks' := AppendBanks(c, family, start + k, indices, banks);
  }

  lemma NothingBatched(c: Context, family: nat, start: nat, banks: seq<seq<real>>)
    requires Usable(c) && Runnable(c, family) && banks == seq(|c.increments|, _ => [])
    ensures IsBatch(c, family, start, 0, Batch(banks, 0, 0))
  {
  }

  /** Why a batch cannot run: a family of length zero, a restart probability outside (0, 1], or an
      unusable drawdown limit. */
  function BatchError(c: Context, family: nat): BootstrapError
    requires family < |c.families|
  {
    if c.families[family] == 0.0 then DivisionUndefined
    else if !(0.0 < Probability(c, family) <= 1.0) then ProbabilityInvalid
    else BankFailed(MaxDdOutOfRange)
  }

  /** `_bootstrap_scenario_batch`: an empty batch never looks at its parameters, any other fails
      exactly when the family or the drawdown limit is unusable. */
  method ScenarioBatch(c: Context, family: nat, start: nat, count: nat) returns (result: Result<Batch, BootstrapError>)
    requires Usable(c) && family < |c.families|
    ensures count == 0 ==> result == Ok(Batch(seq(|c.increments|, _ => []), 0, 0))
    ensures count > 0 ==> (result.Ok? <==> Runnable(c, family))
    ensures count > 0 && result.Ok? ==> IsBatch(c, family, start, count, result.value)
    ensures result.Err? ==> result.error == BatchError(c, family)
    ensures result == Err(DivisionUndefined) <==> count > 0 && c.families[family] == 0.0
    ensures (result == Err(ProbabilityInvalid) <==>
        count > 0 && c.families[family] != 0.0 && !(0.0 < Probability(c, family) <= 1.0))
  {
    hide IsBatch, Usable;
    var banks: seq<seq<real>> := seq(|c.increments|, _ => []);
    if count == 0 {
      return Ok(Batch(banks, 0, 0));
    }
    if c.families[family] == 0.0 {
      return Err(DivisionUndefined);
    }
    var p := Probability(c, family);
    if !(0.0 < p <= 1.0) {
      return Err(ProbabilityInvalid);
    }
    if |c.increments| > 0 && !(0.0 < c.drawdown < 1.0) {
      return Err(BankFailed(MaxDdOutOfRange));
    }
    var mask, restarts := 0, 0;
    NothingBatched(c, family, start, banks);
    for k := 0 to count
      invariant IsBatch(c, family, start, k, Batch(banks, restarts, mask))
    {
      banks, restarts, mask := AddScenario(c, family, start, k, p, banks, restarts, mask);
    }
    result := Ok(Batch(banks, restarts, mask));
  }

  // ----- Splitting the work

  lemma {:induction false} CoverOr(a: nat, b: nat, indices: seq<nat>)
    ensures Cover(Or(a, b), indices) == Or(a, Cover(b, indices))
  {
    if indices != [] {
      var most, last := indices[..|indices| - 1], indices[|indices| - 1];
      CoverOr(a, b, most);
      OrAssociative(a, Cover(b, most), Pow2(last));
    }
  }

  lemma {:induction false} SplitBanks(c: Context, family: nat, start: nat, a: nat, b: nat, v: nat)
    requires Usable(c) && Runnable(c, family) && v < |c.increments|
    ensures BanksOf(c, family, start, a + b, v) == BanksOf(c, family, start, a, v) + BanksOf(c, family, start + a, b, v)
  {
    hide ScenarioBank, Usable, Runnable;
    if b > 0 {
      SplitBanks(c, family, start, a, b - 1, v);
    }
  }

  lemma {:induction false} SplitCounts(c: Context, family: nat, start: nat, a: nat, b: nat)
    requires c.T > 0 && Runnable(c, family)
    ensures RestartsOf(c, family, start, a + b) == RestartsOf(c, family, start, a) + RestartsOf(c, family, start + a, b)
    ensures MaskOf(c, family, start, a + b) == Or(MaskOf(c, family, start, a), MaskOf(c, family, start + a, b))
  {
    hide ScenarioPath, Cover, Restarts;
    if b == 0 {
      OrZero(MaskOf(c, family, start, a));
    } else {
      SplitCounts(c, family, start, a, b - 1);
      CoverOr(MaskOf(c, family, start, a), MaskOf(c, family, start + a, b - 1),
          ScenarioPath(c, family, start + a + b - 1));
    }
  }

  lemma OrZero(a: nat)
    ensures Or(a, 0) == a
  {
  }

  function Sum(counts: seq<nat>): nat {
    if counts == [] then 0 else Sum(counts[..|counts| - 1]) + counts[|counts| - 1]
  }

  /** The results of consecutive batches put together: banks concatenated vector by vector,
      restarts added, masks or-ed. */
  ghost function Merged(width: nat, batches: seq<Batch>): (merged: Batch)
    requires forall i :: 0 <= i < |batches| ==> |batches[i].banks| == width
    ensures |merged.banks| == width
  {
    if batches == [] then Batch(seq(width, _ => []), 0, 0)
    else
      var before, last := Merged(width, batches[..|batches| - 1]), batches[|batches| - 1];
      Batch(seq(width, v requires 0 <= v < width => before.banks[v] + last.banks[v]),
            before.restarts + last.restarts, Or(before.mask, last.mask))
  }

  ghost predicate AreConsecutive(c: Context, family: nat, start: nat, counts: seq<nat>, batches: seq<Batch>)
    requires Usable(c) && Runnable(c, family)
  {
    && |batches| == |counts|
    && (forall i :: 0 <= i < |batches| ==> |batches[i].banks| == |c.increments|)
    && (forall i :: 0 <= i < |batches| ==> IsBatch(c, family, start + Sum(counts[..i]), counts[i], batches[i]))
  }

  lemma MergeTwo(c: Context, family: nat, start: nat, a: nat, b: nat, first: Batch, second: Batch, merged: Batch)
    requires Usable(c) && Runnable(c, family)
    requires IsBatch(c, family, start, a, first) && IsBatch(c, family, start + a, b, second)
    requires |merged.banks| == |c.increments|
    requires forall v :: 0 <= v < |merged.banks| ==> merged.banks[v] == first.banks[v] + second.banks[v]
    requires merged.restarts == first.restarts + second.restarts && merged.mask == Or(first.mask, second.mask)
    ensures IsBatch(c, family, start, a + b, merged)
  {
    assert c.T > 0;
    hide BanksOf, RestartsOf, MaskOf, Or, Usable, Runnable;
    SplitCounts(c, family, start, a, b);
    forall v | 0 <= v < |merged.banks| ensures merged.banks[v] == BanksOf(c, family, start, a + b, v) {
      SplitBanks(c, family, start, a, b, v);
    }
  }

  lemma ConsecutivePrefix(c: Context, family: nat, start: nat, counts: seq<nat>, batches: seq<Batch>)
    requires Usable(c) && Runnable(c, family) && AreConsecutive(c, family, start, counts, batches) && counts != []
    ensures AreConsecutive(c, family, start, counts[..|counts| - 1], batches[..|counts| - 1])
    ensures IsBatch(c, family, start + Sum(counts[..|counts| - 1]), counts[|counts| - 1], batches[|counts| - 1])
  {
    hide IsBatch, Sum, Usable, Runnable;
    var n := |counts| - 1;
    forall i | 0 <= i < n ensures IsBatch(c, family, start + Sum(counts[..n][..i]), counts[..n][i], batches[..n][i]) {
      assert counts[..n][..i] == counts[..i];
    }
  }

  /** However the scenarios are cut into consecutive batches, the merged results are those of one batch. */
  lemma {:induction false} SplitAnywhere(c: Context, family: nat, start: nat, counts: seq<nat>, batches: seq<Batch>)
    requires Usable(c) && Runnable(c, family)
    requires forall i :: 0 <= i < |batches| ==> |batches[i].banks| == |c.increments|
    requires AreConsecutive(c, family, start, counts, batches)
    ensures IsBatch(c, family, start, Sum(counts), Merged(|c.increments|, batches))
  {
    hide IsBatch, Usable, Runnable, AreConsecutive;
    if batches == [] {
      EmptyMerge(c, family, start, counts, batches);
    } else {
      LastMerge(c, family, start, counts, batches);
      var n := |batches| - 1;
      ConsecutivePrefix(c, family, start, counts, batches);
      SplitAnywhere(c, family, start, counts[..n], batches[..n]);
      MergeTwo(c, family, start, Sum(counts[..n]), counts[n], Merged(|c.increments|, batches[..n]), batches[n],
          Merged(|c.increments|, batches));
    }
  }

  lemma EmptyMerge(c: Context, family: nat, start: nat, counts: seq<nat>, batches: seq<Batch>)
    requires Usable(c) && Runnable(c, family) && AreConsecutive(c, family, start, counts, batches) && batches == []
    ensures IsBatch(c, family, start, Sum(counts), Merged(|c.increments|, batches))
  {
    assert counts == [];
  }

  lemma LastMerge(c: Context, family: nat, start: nat, counts: seq<nat>, batches: seq<Batch>)
    requires Usable(c) && Runnable(c, family) && AreConsecutive(c, family, start, counts, batches) && batches != []
    ensures |counts| == |batches| && Sum(counts) == Sum(counts[..|batches| - 1]) + counts[|batches| - 1]
  {
  }
}
