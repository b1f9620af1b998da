/** The forward check in terms of the actions: which of them sets the balance at a moment, which one a funding is
    measured against, and what the sums run over. */
module ForwardMeaning {
  import opened ForwardStats
  import opened Sorting
  import opened StepCurves
  import opened Wrappers

  /** Strictly earlier, or at the same time under a smaller id. */
  predicate Precedes(a: Action, b: Action) {
    a.ts < b.ts || (a.ts == b.ts && a.id < b.id)
  }

  predicate NotAfter(a: Action, b: Action) {
    a.ts < b.ts || (a.ts == b.ts && a.id <= b.id)
  }

  ghost predicate InOrder(s: seq<Action>) {
    forall a, b :: 0 <= a <= b < |s| ==> NotAfter(s[a], s[b])
  }

  lemma SelectedInOrder(actions: seq<Action>, p: Action -> bool)
    ensures InOrder(Sort(Where(actions, p), ByTime()))
    ensures forall a :: a in Sort(Where(actions, p), ByTime()) <==> a in actions && p(a)
  {
    var s := Sort(Where(actions, p), ByTime());
    SortIsSorted(Where(actions, p), ByTime());
    hide Sorting.Sort;
    forall a, b | 0 <= a <= b < |s| ensures NotAfter(s[a], s[b]) {
      assert AtMost(ByTime()(s[a]), ByTime()(s[b]));
    }
    forall a | a in actions && p(a) ensures a in s {
      WhereHas(actions, p, a);
    }
  }

  // ----- Balances

  /** An action with a balance before `t` that the open tail does not hide. */
  ghost predicate Sets(actions: seq<Action>, limit: int, t: int, a: Action) {
    a in actions && a.balance.Some? && a.ts < t && a.ts < limit
  }

  /** The balance just before a moment is the one after the last action, by time and then id, that sets a balance
      before it and before the open tail; without one it is the initial balance; both shifted by the offset. */
  lemma BalanceMeans(actions: seq<Action>, initial: real, offset: real, limit: int, t: int)
    ensures var shown := Last(BalanceCurve(actions, initial, offset, limit), t);
      || (shown == initial + offset && forall a :: !Sets(actions, limit, t, a))
      || (exists a :: Sets(actions, limit, t, a) && shown == a.balance.value + offset
           && forall b :: Sets(actions, limit, t, b) ==> NotAfter(b, a))
  {
    var cut := Sort(Where(actions, BalancedBefore(limit)), ByTime());
    SelectedInOrder(actions, BalancedBefore(limit));
    CutIsBalanced(actions, limit);
    var c := BalanceCurve(actions, initial, offset, limit);
    assert c.times == TimesOf(cut);
    hide Sorting.Sort, Sorting.Where;
    TimesRise(cut);
    BeforeSplits(c.times, t);
    var n := Before(c.times, t);
    forall b | Sets(actions, limit, t, b) ensures exists j :: 0 <= j < n && cut[j] == b {
      assert b in cut;
      var j :| 0 <= j < |cut| && cut[j] == b;
      assert c.times[j] == b.ts;
    }
    if n > 0 {
      assert cut[n - 1] in cut && c.times[n - 1] == cut[n - 1].ts;
      assert Sets(actions, limit, t, cut[n - 1]);
    }
  }

  lemma TimesRise(s: seq<Action>)
    requires InOrder(s)
    ensures NonDecreasing(TimesOf(s))
  {
    forall a, b | 0 <= a <= b < |s| ensures TimesOf(s)[a] <= TimesOf(s)[b] {
      assert NotAfter(s[a], s[b]);
    }
  }

  // ----- Funding

  /** The balance that an action starts from: the initial one, or that of the last balanced action before it. */
  ghost predicate StartsFrom(actions: seq<Action>, initial: real, a: Action, previous: real) {
    || (previous == initial && forall q :: q in actions && q.balance.Some? ==> !Precedes(q, a))
    || (exists p :: IsPredecessor(actions, a, p) && p.balance.value == previous)
  }

  ghost predicate IsPredecessor(actions: seq<Action>, a: Action, p: Action) {
    && p in actions && p.balance.Some? && Precedes(p, a)
    && forall q :: q in actions && q.balance.Some? && Precedes(q, a) ==> NotAfter(q, p)
  }

  /** The funding of a balanced action is what its balance changed beyond its own result less its fee; an action
      without a balance has none. */
  lemma FundingMeans(actions: seq<Action>, initial: real, funding: map<int, real>, a: Action)
    requires DistinctBy(actions, IdOf()) && a in actions
    requires Balanced(Chain(actions)) && funding == FundingMap(initial, Chain(actions), |Chain(actions)|)
    ensures a.id in funding <==> a.balance.Some?
    ensures (a.balance.Some? ==>
        StartsFrom(actions, initial, a, a.balance.value - (a.pnl - a.fee) - funding[a.id]))
  {
    var chain := Chain(actions);
    FundingIsComplete(actions, initial, funding);
    SelectedInOrder(actions, HasBalance());
    ChainIsDistinct(actions);
    if a.balance.Some? {
      FundingOnChain(actions, chain, initial, funding, a);
    } else {
      var k :| 0 <= k < |actions| && actions[k] == a;
      hide Sorting.Sort, Sorting.Where, FundingMap, Chain;
      UnbalancedIsOffChain(actions, k);
      FundingMapOnly(initial, chain, |chain|, a.id);
    }
  }

  lemma FundingOnChain(actions: seq<Action>, chain: seq<Action>, initial: real, funding: map<int, real>, a: Action)
    requires InOrder(chain) && DistinctBy(chain, IdOf()) && Funded(chain, initial, funding)
    requires a in actions && a.balance.Some? && forall q :: q in chain <==> q in actions && q.balance.Some?
    ensures a.id in funding
    ensures StartsFrom(actions, initial, a, a.balance.value - (a.pnl - a.fee) - funding[a.id])
  {
    hide *;
    assert a in chain;
    var k :| 0 <= k < |chain| && chain[k] == a;
    FundedAt(chain, initial, funding, k);
    StartsOnChain(actions, chain, initial, k);
    FundingIs(initial, chain, k);
  }

  lemma FundedAt(chain: seq<Action>, initial: real, funding: map<int, real>, k: nat)
    requires Funded(chain, initial, funding) && k < |chain|
    ensures Balanced(chain) && chain[k].balance.Some? && (k > 0 ==> chain[k - 1].balance.Some?)
    ensures chain[k].id in funding && funding[chain[k].id] == FundingAt(initial, chain, k)
  {
  }

  lemma FundingIs(initial: real, chain: seq<Action>, k: nat)
    requires k < |chain| && chain[k].balance.Some? && (k > 0 ==> chain[k - 1].balance.Some?)
    ensures (chain[k].balance.value - (chain[k].pnl - chain[k].fee) - FundingAt(initial, chain, k)
        == ChainBalance(initial, chain, k))
  {
  }

  lemma StartsOnChain(actions: seq<Action>, chain: seq<Action>, initial: real, k: nat)
    requires InOrder(chain) && DistinctBy(chain, IdOf()) && Balanced(chain) && k < |chain|
    requires forall q :: q in chain <==> q in actions && q.balance.Some?
    ensures StartsFrom(actions, initial, chain[k], ChainBalance(initial, chain, k))
  {
    PredecessorInChain(actions, chain, k);
    hide InOrder, IsPredecessor, Precedes;
  }

  lemma PredecessorInChain(actions: seq<Action>, chain: seq<Action>, k: nat)
    requires InOrder(chain) && DistinctBy(chain, IdOf()) && k < |chain|
    requires forall a :: a in chain <==> a in actions && a.balance.Some?
    ensures k == 0 ==> forall q :: q in actions && q.balance.Some? ==> !Precedes(q, chain[k])
    ensures k > 0 ==> IsPredecessor(actions, chain[k], chain[k - 1])
  {
    forall j: nat | k <= j < |chain| ensures !Precedes(chain[j], chain[k]) {
      assert NotAfter(chain[k], chain[j]);
    }
    forall q | q in actions && q.balance.Some? && Precedes(q, chain[k])
      ensures exists j :: 0 <= j < k && chain[j] == q
    {
      assert q in chain;
      var j :| 0 <= j < |chain| && chain[j] == q;
    }
    if k > 0 {
      assert chain[k - 1] in chain && NotAfter(chain[k - 1], chain[k]);
      assert IdOf()(chain[k - 1]) != IdOf()(chain[k]);
    }
  }

  // ----- Sums and weeks

  /** The results of the window's actions that decrease or close a position. */
  ghost function ResultsIn(actions: seq<Action>, t: int, e: int): real {
    if actions == [] then 0.0
    else
      var a := actions[0];
      ResultsIn(actions[1..], t, e) + if t <= a.ts < e && (a.kind == Decreased || a.kind == Closed) then a.pnl else 0.0
  }

  ghost function FeesIn(actions: seq<Action>, t: int, e: int): real {
    if actions == [] then 0.0
    else FeesIn(actions[1..], t, e) + if t <= actions[0].ts < e then actions[0].fee else 0.0
  }

  ghost function FundingsIn(actions: seq<Action>, funding: map<int, real>, t: int, e: int): real {
    if actions == [] then 0.0
    else
      var a := actions[0];
      FundingsIn(actions[1..], funding, t, e) + if t <= a.ts < e && a.id in funding then funding[a.id] else 0.0
  }

  lemma {:induction false} SumSplits(s: seq<Action>, p: Action -> bool, f: Action -> real)
    requires s != []
    ensures Sum(Where(s, p), f) == Sum(Where(s[1..], p), f) + if p(s[0]) then f(s[0]) else 0.0
  {
    hide Sum, Where;
    var n := |s| - 1;
    if n == 0 {
      assert s == [s[0]] && s[1..] == [];
      SumOfOne(s[0], p, f);
    } else {
      SumSplits(s[..n], p, f);
      assert s == s[..n] + [s[n]] && s[1..] == s[..n][1..] + [s[n]];
      AppendedSum(s[..n], s[n], p, f);
      AppendedSum(s[..n][1..], s[n], p, f);
    }
  }

  lemma SumOfOne(x: Action, p: Action -> bool, f: Action -> real)
    ensures Sum(Where([x], p), f) == if p(x) then f(x) else 0.0
    ensures Sum(Where([], p), f) == 0.0
  {
    AppendedSum([], x, p, f);
    assert [] + [x] == [x];
  }

  lemma AppendedSum(s: seq<Action>, x: Action, p: Action -> bool, f: Action -> real)
    ensures Sum(Where(s + [x], p), f) == Sum(Where(s, p), f) + if p(x) then f(x) else 0.0
  {
    WhereSnoc(s, x, p);
    SumSnoc(Where(s, p), x, f);
  }

  /** The sums of the check run over the window's actions, each counted once. */
  lemma {:induction false} SumsMean(actions: seq<Action>, funding: map<int, real>, t: int, e: int)
    ensures Sum(Where(actions, InSpan(t, e)), Realized()) == ResultsIn(actions, t, e)
    ensures Sum(Where(actions, InSpan(t, e)), Fee()) == FeesIn(actions, t, e)
    ensures Sum(Where(actions, InSpan(t, e)), FundingOf(funding)) == FundingsIn(actions, funding, t, e)
  {
    if actions != [] {
      SumsMean(actions[1..], funding, t, e);
      SumSplits(actions, InSpan(t, e), Realized());
      SumSplits(actions, InSpan(t, e), Fee());
      SumSplits(actions, InSpan(t, e), FundingOf(funding));
      hide Sum, Where;
    }
  }

  /** A week of the window is 604,800,000 milliseconds; the last one ends with the window. */
  lemma WeekMeans(c: Curve, t: int, e: int, k: nat)
    requires |c.times| == |c.values| && t + k * 604_800_000 < e
    ensures WeekChange(c, t, e, k) ==
      Last(c, if t + (k + 1) * 604_800_000 < e then t + (k + 1) * 604_800_000 else e) - Last(c, t + k * 604_800_000)
  {
  }
}
