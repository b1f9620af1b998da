/** One bootstrap scenario in terms of its random stream: the positions drawn, the gains they add up to, the bank
    these need, and what a batch of one scenario reports. */
module BootstrapMeaning {
  import opened Bootstrap
  import opened PortfolioBank
  import opened Wrappers

  // ----- The positions

  /** The first position and every restart is the drawn one; every other is the successor of the position before it,
      and the first one follows the last one. */
  ghost predicate IsDrawn(path: seq<nat>, s: Stream, T: nat, p: real) {
    && |path| == T
    && (forall k :: 0 <= k < T ==> path[k] < T)
    && (forall k :: 0 <= k < T && (k == 0 || s.unit(k) < p) ==> path[k] == s.draw(k))
    && (forall k :: 0 < k < T && s.unit(k) >= p ==> path[k] == if path[k - 1] == T - 1 then 0 else path[k - 1] + 1)
  }

  lemma NextModulo(x: nat, T: nat)
    requires x < T
    ensures (x + 1) % T == if x == T - 1 then 0 else x + 1
  {
  }

  lemma PathIsDrawn(c: Context, family: nat, scenario: nat)
    requires Usable(c) && Runnable(c, family)
    ensures IsDrawn(ScenarioPath(c, family, scenario), c.rng.at(Triple(c.seed, family, scenario)), c.T,
        Probability(c, family))
  {
    var s, p := c.rng.at(Triple(c.seed, family, scenario)), Probability(c, family);
    var path := ScenarioPath(c, family, scenario);
    PathInRange(c, family, scenario);
    forall k | 0 < k < c.T && s.unit(k) >= p
      ensures path[k] == if path[k - 1] == c.T - 1 then 0 else path[k - 1] + 1
    {
      IndexStep(s, c.T, p, k);
      NextModulo(path[k - 1], c.T);
    }
  }

  /** The positions below `n`, the first one aside, whose variate is below the probability. */
  ghost function RestartSet(s: Stream, p: real, n: nat): set<nat> {
    set k: nat | 0 < k < n && s.unit(k) < p
  }

  lemma RestartSetStep(s: Stream, p: real, n: nat)
    requires n >= 1
    ensures RestartSet(s, p, n + 1) == RestartSet(s, p, n) + if s.unit(n) < p then {n} else {}
    ensures n !in RestartSet(s, p, n) && RestartSet(s, p, 1) == {} == RestartSet(s, p, 0)
  {
  }

  lemma {:induction false} RestartsMean(s: Stream, p: real, n: nat)
    ensures Restarts(s, p, n) == |RestartSet(s, p, n)|
  {
    if n <= 1 {
      RestartSetStep(s, p, 1);
    } else {
      RestartsMean(s, p, n - 1);
      RestartSetStep(s, p, n - 1);
      hide RestartSet;
    }
  }

  // ----- The gains and the bank

  /** The gains add up the row's increments at the drawn positions. */
  ghost predicate AddsUp(path: seq<real>, row: seq<real>, indices: seq<nat>)
    requires forall k :: 0 <= k < |indices| ==> indices[k] < |row|
  {
    && |path| == |indices| && (indices != [] ==> path[0] == row[indices[0]])
    && forall k :: 0 < k < |indices| ==> path[k] - path[k - 1] == row[indices[k]]
  }

  lemma SampleAddsUp(row: seq<real>, indices: seq<nat>)
    requires forall k :: 0 <= k < |indices| ==> indices[k] < |row|
    ensures AddsUp(SampledPath(row, indices), row, indices)
  {
    if indices != [] {
      assert Accumulated(row, indices, 1) == Accumulated(row, indices, 0) + row[indices[0]];
    }
  }

  /** The bank is the least that keeps the drawdown of the sampled gains within the limit. */
  ghost predicate IsBank(bank: real, path: seq<real>, limit: real) {
    forall b :: Covers(path, limit, b, |path|) <==> b >= bank
  }

  /** What a batch of one scenario reports: for every vector the bank of its gains, the number of restarts, and the
      positions drawn as the bits of the mask. */
  lemma OneScenario(c: Context, family: nat, scenario: nat, batch: Batch)
    returns (indices: seq<nat>, paths: seq<seq<real>>)
    requires Usable(c) && Runnable(c, family) && (c.increments != [] ==> 0.0 < c.drawdown < 1.0)
    requires IsBatch(c, family, scenario, 1, batch)
    ensures var s, p := c.rng.at(Triple(c.seed, family, scenario)), Probability(c, family);
      && IsDrawn(indices, s, c.T, p)
      && batch.restarts == |RestartSet(s, p, c.T)|
      && (forall i: nat :: Bit(batch.mask, i) <==> i in indices)
    ensures |paths| == |batch.banks| == |c.increments|
    ensures (forall v :: 0 <= v < |paths| ==>
        AddsUp(paths[v], c.increments[v], indices) && |batch.banks[v]| == 1
        && IsBank(batch.banks[v][0], paths[v], c.drawdown))
  {
    var s, p := c.rng.at(Triple(c.seed, family, scenario)), Probability(c, family);
    indices := ScenarioPath(c, family, scenario);
    PathIsDrawn(c, family, scenario);
    PathInRange(c, family, scenario);
    RestartsMean(s, p, c.T);
    assert RestartsOf(c, family, scenario, 0) == 0;
    forall i: nat ensures Bit(batch.mask, i) <==> i in indices {
      MaskMeaning(c, family, scenario, 1, i);
    }
    paths := seq(|c.increments|, v requires 0 <= v < |c.increments| => SampledPath(c.increments[v], indices));
    hide Probability, ScenarioPath, MaskOf, Bit, IsDrawn, Covers, Bank, Restarts, RestartSet;
    forall v | 0 <= v < |paths|
      ensures AddsUp(paths[v], c.increments[v], indices) && |batch.banks[v]| == 1
      ensures IsBank(batch.banks[v][0], paths[v], c.drawdown)
    {
      SampleAddsUp(c.increments[v], indices);
      assert BanksOf(c, family, scenario, 0, v) == [];
      assert batch.banks[v] == [ScenarioBank(c, family, scenario, v)];
      forall b ensures Covers(paths[v], c.drawdown, b, |paths[v]|) <==> b >= batch.banks[v][0] {
        BankIsLeast(paths[v], c.drawdown, c.T, b);
      }
    }
  }

  // ----- The parameters and the masks

  lemma QuotientIs(x: real, w: real)
    requires w != 0.0
    ensures x / w * w == x
    ensures (0.0 < x / w <= 1.0 <==> (0.0 < x <= w || w <= x < 0.0))
  {
    var q := x / w;
    assert q * w == x;
    if w > 0.0 {
      UnitShare(q, w);
    } else {
      UnitShare(q, -w);
    }
  }

  lemma UnitShare(q: real, w: real)
    requires w > 0.0
    ensures 0.0 < q <==> 0.0 < q * w
    ensures q <= 1.0 <==> q * w <= w
  {
    assert q * w <= w <==> (1.0 - q) * w >= 0.0;
  }

  /** The restart probability is the history step over the family's block length in minutes, and a batch runs exactly
      when it lies in (0, 1] and there is nothing to bank or the drawdown limit lies in (0, 1). */
  lemma RunnableMeans(c: Context, family: nat)
    requires family < |c.families|
    ensures c.families[family] != 0.0 ==> Probability(c, family) * (1440.0 * c.families[family]) == c.step
    ensures (Runnable(c, family) <==>
        && (0.0 < c.step <= 1440.0 * c.families[family] || 1440.0 * c.families[family] <= c.step < 0.0)
        && (c.increments == [] || 0.0 < c.drawdown < 1.0))
  {
    if c.families[family] != 0.0 {
      QuotientIs(c.step, 1440.0 * c.families[family]);
    }
  }

  /** The lowest bit is the parity, and the others are those of the half. */
  lemma BitMeans(half: nat, parity: nat, i: nat)
    requires parity <= 1
    ensures Bit(2 * half + parity, 0) <==> parity == 1
    ensures Bit(2 * half + parity, i + 1) <==> Bit(half, i)
  {
    assert (2 * half + parity) / 2 == half;
  }
}
