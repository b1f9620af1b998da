/** The forward window of a point: balance change, booked results, folded-in funding and the check
    that ties them together, and the split of the change into weeks. */
module ForwardStats {
  import opened Sorting
  import opened StepCurves
  import opened Wrappers

  datatype Kind = Decreased | Closed | OtherKind

  /** One row of the tester's transaction table; `id` stands for the rank of the action id. */
  datatype Action = Action(id: int, ts: int, kind: Kind, balance: Option<real>, pnl: real, fee: real)

  const WEEK_MS: int := 7 * 86_400_000

  // Named selections and weights, so that sums over them can be compared.

  function ByTime(): Action -> (int, int) { (a: Action) => (a.ts, a.id) }

  function IdOf(): Action -> int { (a: Action) => a.id }

  function HasBalance(): Action -> bool { (a: Action) => a.balance.Some? }

  function BalancedBefore(limit: int): Action -> bool { (a: Action) => a.balance.Some? && a.ts < limit }

  function Earlier(limit: int): Action -> bool { (a: Action) => a.ts < limit }

  function InSpan(t: int, e: int): Action -> bool { (a: Action) => t <= a.ts < e }

  function Realized(): Action -> real { (a: Action) => if a.kind == OtherKind then 0.0 else a.pnl }

  function Fee(): Action -> real { (a: Action) => a.fee }

  function FundingOf(funding: map<int, real>): Action -> real {
    (a: Action) => if a.id in funding then funding[a.id] else 0.0
  }

  function NetIfBalanced(): Action -> real { (a: Action) => if a.balance.Some? then a.pnl - a.fee else 0.0 }

  /** What an action leaves unexplained: the result of a balanced action that is not booked as
      decreased or closed, and the whole effect of an action without a balance. */
  function Residual(): Action -> real {
    (a: Action) =>
      if a.balance.None? then a.fee - Realized()(a)
      else if a.kind == OtherKind then a.pnl
      else 0.0
  }

  // ----- The balance chain

  /** Actions that carry a balance, in (time, id) order. */
  function Chain(actions: seq<Action>): (chain: seq<Action>)
    ensures forall a :: a in chain ==> a.balance.Some?
  {
    SortIsSorted(Where(actions, HasBalance()), ByTime());
    Sort(Where(actions, HasBalance()), ByTime())
  }

  function TimesOf(chain: seq<Action>): (times: seq<int>)
    ensures |times| == |chain|
  {
    seq(|chain|, k requires 0 <= k < |chain| => chain[k].ts)
  }

  /** The balance after the first `n` chain actions. */
  function ChainBalance(initial: real, chain: seq<Action>, n: nat): real
    requires n <= |chain| && (n > 0 ==> chain[n - 1].balance.Some?)
  {
    if n == 0 then initial else chain[n - 1].balance.value
  }

  /** What the chain step `k` moved beyond the action's own result and fee. */
  function FundingAt(initial: real, chain: seq<Action>, k: nat): real
    requires k < |chain| && chain[k].balance.Some? && (k > 0 ==> chain[k - 1].balance.Some?)
  {
    chain[k].balance.value - ChainBalance(initial, chain, k) - (chain[k].pnl - chain[k].fee)
  }

  ghost predicate Balanced(chain: seq<Action>) {
    forall k :: 0 <= k < |chain| ==> chain[k].balance.Some?
  }

  lemma ChainIsBalanced(actions: seq<Action>)
    ensures Balanced(Chain(actions)) && SortedBy(Chain(actions), ByTime()) && NonDecreasing(TimesOf(Chain(actions)))
    ensures Where(Sort(actions, ByTime()), HasBalance()) == Chain(actions)
  {
    var chain := Chain(actions);
    SortIsSorted(Where(actions, HasBalance()), ByTime());
    WhereSort(actions, ByTime(), HasBalance());
    forall k | 0 <= k < |chain| ensures chain[k].balance.Some? { assert chain[k] in chain; }
    forall a, b | 0 <= a <= b < |chain| ensures TimesOf(chain)[a] <= TimesOf(chain)[b] {
      assert AtMost(ByTime()(chain[a]), ByTime()(chain[b]));
    }
  }

  lemma ChainIsDistinct(actions: seq<Action>)
    requires DistinctBy(actions, IdOf())
    ensures DistinctBy(Chain(actions), IdOf())
  {
    WhereDistinct(actions, HasBalance(), IdOf());
    SortDistinct(Where(actions, HasBalance()), ByTime(), IdOf());
  }

  /** The dictionary after the first `n` chain elements. */
  ghost function FundingMap(initial: real, chain: seq<Action>, n: nat): map<int, real>
    requires Balanced(chain) && n <= |chain|
  {
    if n == 0 then map[] else FundingMap(initial, chain, n - 1)[chain[n - 1].id := FundingAt(initial, chain, n - 1)]
  }

  /** With distinct ids every chain element finds its own funding. */
  lemma {:induction false} FundingMapAt(initial: real, chain: seq<Action>, n: nat, k: nat)
    requires Balanced(chain) && k < n <= |chain| && DistinctBy(chain, IdOf())
    ensures chain[k].id in FundingMap(initial, chain, n)
    ensures FundingMap(initial, chain, n)[chain[k].id] == FundingAt(initial, chain, k)
  {
    if k < n - 1 {
      FundingMapAt(initial, chain, n - 1, k);
      assert IdOf()(chain[k]) != IdOf()(chain[n - 1]);
    }
  }

  lemma {:induction false} FundingMapOnly(initial: real, chain: seq<Action>, n: nat, id: int)
    requires Balanced(chain) && n <= |chain| && forall k :: 0 <= k < n ==> chain[k].id != id
    ensures id !in FundingMap(initial, chain, n)
  {
    if n > 0 {
      FundingMapOnly(initial, chain, n - 1, id);
    }
  }

  lemma NothingBefore(s: seq<Action>)
    ensures Where(s[..0], HasBalance()) == []
  {
  }

  /** `_funding_by_action`: walk the sorted actions, skipping those without a balance. */
  method FundingByAction(actions: seq<Action>, initial: real) returns (funding: map<int, real>)
    ensures Balanced(Chain(actions)) && funding == FundingMap(initial, Chain(actions), |Chain(actions)|)
  {
    hide Sort, Where;
    var ordered := Sort(actions, ByTime());
    ChainIsBalanced(actions);
    ghost var chain := Chain(actions);
    funding := map[];
    var previous := initial;
    ghost var n := 0;
    NothingBefore(ordered);
    for k := 0 to |ordered|
      invariant n == |Where(ordered[..k], HasBalance())| <= |chain|
      invariant previous == ChainBalance(initial, chain, n)
      invariant funding == FundingMap(initial, chain, n)
    {
      var action := ordered[k];
      WhereStep(ordered, k, HasBalance(), n);
      if action.balance.Some? {
        var balance := action.balance.value;
        funding := funding[action.id := balance - previous - (action.pnl - action.fee)];
        previous := balance;
        n := n + 1;
      }
    }
    assert ordered[..|ordered|] == ordered;
  }

  // ----- The series' balance curve

  function Smaller(a: nat, b: nat): nat {
    if a < b then a else b
  }

  /** `Series.at` and `Series.av`: balanced actions before the open tail, shifted by `offset`. */
  function BalanceCurve(actions: seq<Action>, initial: real, offset: real, limit: int): (c: Curve)
    ensures |c.times| == |c.values|
  {
    var cut := Sort(Where(actions, BalancedBefore(limit)), ByTime());
    CutIsBalanced(actions, limit);
    Curve(initial + offset, TimesOf(cut), seq(|cut|, k requires 0 <= k < |cut| => cut[k].balance.value + offset))
  }

  lemma CutIsBalanced(actions: seq<Action>, limit: int)
    ensures Balanced(Sort(Where(actions, BalancedBefore(limit)), ByTime()))
  {
    var cut := Sort(Where(actions, BalancedBefore(limit)), ByTime());
    SortIsSorted(Where(actions, BalancedBefore(limit)), ByTime());
    forall k | 0 <= k < |cut| ensures cut[k].balance.Some? { assert cut[k] in cut; }
  }

  /** On a sorted chain, the actions before a time are a prefix. */
  lemma {:induction false} EarlierIsPrefix(chain: seq<Action>, limit: int, n: nat)
    requires NonDecreasing(TimesOf(chain)) && n <= |chain|
    ensures Where(chain[..n], Earlier(limit)) == chain[..Smaller(n, Before(TimesOf(chain), limit))]
  {
    if n > 0 {
      EarlierIsPrefix(chain, limit, n - 1);
      BeforeSplits(TimesOf(chain), limit);
      assert chain[..n] == chain[..n - 1] + [chain[n - 1]];
      WhereSnoc(chain[..n - 1], chain[n - 1], Earlier(limit));
      assert TimesOf(chain)[n - 1] == chain[n - 1].ts;
    }
  }

  /** The cut chain is the part of the whole chain before the limit. */
  lemma CutIsPrefix(actions: seq<Action>, limit: int)
    ensures var chain := Chain(actions);
            Sort(Where(actions, BalancedBefore(limit)), ByTime()) == chain[..Before(TimesOf(chain), limit)]
  {
    var chain := Chain(actions);
    WhereTwice(actions, HasBalance(), Earlier(limit), BalancedBefore(limit));
    WhereSort(Where(actions, HasBalance()), ByTime(), Earlier(limit));
    ChainIsBalanced(actions);
    EarlierIsPrefix(chain, limit, |chain|);
    assert chain[..|chain|] == chain;
  }

  /** How many chain actions the cut series has seen before `t`. */
  ghost function Seen(chain: seq<Action>, limit: int, t: int): (n: nat)
    ensures n <= |chain|
  {
    Smaller(Before(TimesOf(chain), t), Before(TimesOf(chain), limit))
  }

  lemma BeforeInPrefix(times: seq<int>, limit: int, t: int)
    requires NonDecreasing(times)
    ensures NonDecreasing(times[..Before(times, limit)])
    ensures Before(times[..Before(times, limit)], t) == Smaller(Before(times, t), Before(times, limit))
  {
    BeforeSplits(times, t);
    BeforeSplits(times, limit);
    BeforeIs(times[..Before(times, limit)], t, Smaller(Before(times, t), Before(times, limit)));
  }

  /** The balance just before `t` is that of the chain at `t`, or at the open tail if that is earlier. */
  lemma BalanceBefore(actions: seq<Action>, initial: real, offset: real, limit: int, t: int)
    requires Balanced(Chain(actions))
    ensures Last(BalanceCurve(actions, initial, offset, limit), t) ==
              offset + ChainBalance(initial, Chain(actions), Seen(Chain(actions), limit, t))
  {
    hide Sort, Where, Before;
    var chain := Chain(actions);
    ChainIsBalanced(actions);
    CutIsPrefix(actions, limit);
    CutIsBalanced(actions, limit);
    assert BalanceCurve(actions, initial, offset, limit).times == TimesOf(chain)[..Before(TimesOf(chain), limit)];
    BeforeInPrefix(TimesOf(chain), limit, t);
  }

  // ----- Conservation

  ghost predicate Funded(chain: seq<Action>, initial: real, funding: map<int, real>) {
    && Balanced(chain)
    && forall k :: 0 <= k < |chain| ==> chain[k].id in funding && funding[chain[k].id] == FundingAt(initial, chain, k)
  }

  /** Inside a span, one chain action moves the balance by its funding and its net result. */
  lemma SpanStep(chain: seq<Action>, t: int, e: int, n: nat, f: Action -> real)
    requires NonDecreasing(TimesOf(chain)) && n < |chain|
    ensures var inside := Before(TimesOf(chain), t) <= n < Before(TimesOf(chain), e);
            Sum(Where(chain[..n + 1], InSpan(t, e)), f) == Sum(Where(chain[..n], InSpan(t, e)), f) + if inside
              then f(chain[n]) else 0.0
  {
    BeforeSplits(TimesOf(chain), t);
    BeforeSplits(TimesOf(chain), e);
    assert chain[..n + 1] == chain[..n] + [chain[n]] && TimesOf(chain)[n] == chain[n].ts;
    WhereSnoc(chain[..n], chain[n], InSpan(t, e));
    SumSnoc(Where(chain[..n], InSpan(t, e)), chain[n], f);
  }

  /** One chain action moves the balance by its funding and its net result. */
  lemma BalanceMoves(chain: seq<Action>, initial: real, n: nat, cut: nat)
    requires Balanced(chain) && n < |chain| && cut <= |chain|
    ensures ChainBalance(initial, chain, Smaller(n + 1, cut)) - ChainBalance(initial, chain, Smaller(n, cut)) ==
              if n < cut then FundingAt(initial, chain, n) + NetIfBalanced()(chain[n]) else 0.0
  {
  }

  /** The fundings and results of the chain actions inside a span telescope to the balance change. */
  lemma {:induction false} SpanTelescopes(chain: seq<Action>, initial: real, funding: map<int, real>, t: int, e: int,
                                          n: nat)
    requires Funded(chain, initial, funding) && NonDecreasing(TimesOf(chain)) && n <= |chain|
    requires Before(TimesOf(chain), t) <= Before(TimesOf(chain), e)
    ensures Sum(Where(chain[..n], InSpan(t, e)), FundingOf(funding))
      + Sum(Where(chain[..n], InSpan(t, e)), NetIfBalanced()) ==
              ChainBalance(initial, chain, Smaller(n, Before(TimesOf(chain), e)))
                - ChainBalance(initial, chain, Smaller(n, Before(TimesOf(chain), t)))
  {
    if n == 0 {
      assert Where(chain[..0], InSpan(t, e)) == [];
    } else {
      SpanTelescopes(chain, initial, funding, t, e, n - 1);
      SpanStep(chain, t, e, n - 1, FundingOf(funding));
      SpanStep(chain, t, e, n - 1, NetIfBalanced());
      BalanceMoves(chain, initial, n - 1, Before(TimesOf(chain), t));
      BalanceMoves(chain, initial, n - 1, Before(TimesOf(chain), e));
      assert FundingOf(funding)(chain[n - 1]) == FundingAt(initial, chain, n - 1);
      hide Sum, Where, Before, NonDecreasing, Funded, ChainBalance, FundingAt, Smaller, TimesOf;
      hide NetIfBalanced, FundingOf;
    }
  }

  datatype Check = Check(delta: real, sumPnl: real, sumFee: real, sumFunding: real, diff: real, weeks: seq<real>)

  /** How much of the whole chain's change over [t, e) lies behind the limit and is not seen. */
  ghost function Unseen(initial: real, chain: seq<Action>, limit: int, t: int, e: int): real
    requires Balanced(chain)
  {
    (ChainBalance(initial, chain, Before(TimesOf(chain), e)) - ChainBalance(initial, chain, Seen(chain, limit, e)))
    - (ChainBalance(initial, chain, Before(TimesOf(chain), t)) - ChainBalance(initial, chain, Seen(chain, limit, t)))
  }

  function Explained(window: seq<Action>, funding: map<int, real>): real {
    Sum(window, Realized()) - Sum(window, Fee()) + Sum(window, FundingOf(funding))
  }

  /** What `chk_diff` is, for every action list, window and open tail: the residuals of the
      window's actions less the change that the cut series does not see. */
  lemma CheckDifference(actions: seq<Action>, initial: real, offset: real, limit: int, t: int, e: int,
                        funding: map<int, real>)
    requires DistinctBy(actions, IdOf()) && t <= e
    requires Balanced(Chain(actions)) && funding == FundingMap(initial, Chain(actions), |Chain(actions)|)
    ensures Last(BalanceCurve(actions, initial, offset, limit), e)
      - Last(BalanceCurve(actions, initial, offset, limit), t)
              - Explained(Where(actions, InSpan(t, e)), funding) ==
            Sum(Where(actions, InSpan(t, e)), Residual()) - Unseen(initial, Chain(actions), limit, t, e)
  {
    hide Sum, Where, Sort, Before, FundingMap, Last;
    var chain, window := Chain(actions), Where(actions, InSpan(t, e));
    ChainIsBalanced(actions);
    FundingIsComplete(actions, initial, funding);
    BalanceBefore(actions, initial, offset, limit, t);
    BalanceBefore(actions, initial, offset, limit, e);
    BeforeOrdered(TimesOf(chain), t, e);
    SpanTelescopes(chain, initial, funding, t, e, |chain|);
    assert chain[..|chain|] == chain;
    UnbalancedHasNoFunding(actions, initial, funding);
    SpanSumOverChain(actions, t, e, FundingOf(funding));
    SpanSumOverChain(actions, t, e, NetIfBalanced());
    SumLinear(window, Residual(), NetIfBalanced(), Realized(), Fee());
  }

  lemma BeforeOrdered(times: seq<int>, t: int, e: int)
    requires NonDecreasing(times) && t <= e
    ensures Before(times, t) <= Before(times, e)
  {
    BeforeMonotone(Curve(0.0, times, seq(|times|, k => 0.0)), t, e);
  }

  lemma FundingIsComplete(actions: seq<Action>, initial: real, funding: map<int, real>)
    requires DistinctBy(actions, IdOf())
    requires Balanced(Chain(actions)) && funding == FundingMap(initial, Chain(actions), |Chain(actions)|)
    ensures Funded(Chain(actions), initial, funding)
  {
    var chain := Chain(actions);
    ChainIsDistinct(actions);
    forall k | 0 <= k < |chain| ensures chain[k].id in funding && funding[chain[k].id] == FundingAt(initial, chain, k) {
      FundingMapAt(initial, chain, |chain|, k);
    }
  }

  /** Sums over the window may be taken over the sorted chain when unbalanced actions weigh nothing. */
  lemma SpanSumOverChain(actions: seq<Action>, t: int, e: int, f: Action -> real)
    requires forall k :: 0 <= k < |actions| && !HasBalance()(actions[k]) ==> f(actions[k]) == 0.0
    ensures Sum(Where(actions, InSpan(t, e)), f) == Sum(Where(Chain(actions), InSpan(t, e)), f)
  {
    SumSkips(actions, HasBalance(), InSpan(t, e), f);
    WhereSort(Where(actions, HasBalance()), ByTime(), InSpan(t, e));
    SumSort(Where(Where(actions, HasBalance()), InSpan(t, e)), ByTime(), f);
  }

  lemma UnbalancedHasNoFunding(actions: seq<Action>, initial: real, funding: map<int, real>)
    requires DistinctBy(actions, IdOf())
    requires Balanced(Chain(actions)) && funding == FundingMap(initial, Chain(actions), |Chain(actions)|)
    ensures forall k :: 0 <= k < |actions| && !HasBalance()(actions[k]) ==> FundingOf(funding)(actions[k]) == 0.0
  {
    forall k | 0 <= k < |actions| && !HasBalance()(actions[k]) ensures actions[k].id !in funding {
      UnbalancedIsOffChain(actions, k);
      FundingMapOnly(initial, Chain(actions), |Chain(actions)|, actions[k].id);
    }
  }

  lemma UnbalancedIsOffChain(actions: seq<Action>, k: nat)
    requires DistinctBy(actions, IdOf()) && k < |actions| && actions[k].balance.None?
    ensures forall j :: 0 <= j < |Chain(actions)| ==> Chain(actions)[j].id != actions[k].id
  {
    hide Sort, Where;
    var chain := Chain(actions);
    SortIsSorted(Where(actions, HasBalance()), ByTime());
    forall j | 0 <= j < |chain| ensures chain[j].id != actions[k].id {
      assert chain[j] in chain && chain[j] in actions;
      var i :| 0 <= i < |actions| && actions[i] == chain[j];
      assert i < k ==> IdOf()(actions[i]) != IdOf()(actions[k]);
      assert k < i ==> IdOf()(actions[k]) != IdOf()(actions[i]);
    }
  }

  /** The check is clean exactly when the books are: for a window the open tail does not cut, whose
      actions all carry a balance, the difference is the result booked on other actions. */
  lemma CheckIsOtherResults(actions: seq<Action>, initial: real, offset: real, limit: int, t: int, e: int,
                            funding: map<int, real>)
    requires DistinctBy(actions, IdOf()) && t <= e <= limit
    requires forall k :: 0 <= k < |actions| ==> actions[k].balance.Some?
    requires Balanced(Chain(actions)) && funding == FundingMap(initial, Chain(actions), |Chain(actions)|)
    ensures Last(BalanceCurve(actions, initial, offset, limit), e)
      - Last(BalanceCurve(actions, initial, offset, limit), t)
              - Explained(Where(actions, InSpan(t, e)), funding) ==
            Sum(Where(actions, InSpan(t, e)), OtherResult())
  {
    hide Sum, Where, Sort, Before, FundingMap, Last;
    var chain, window := Chain(actions), Where(actions, InSpan(t, e));
    CheckDifference(actions, initial, offset, limit, t, e, funding);
    ChainIsBalanced(actions);
    BeforeOrdered(TimesOf(chain), e, limit);
    BeforeOrdered(TimesOf(chain), t, limit);
    assert forall k :: 0 <= k < |window| ==> window[k] in window && window[k] in actions;
    SumSame(window, Residual(), OtherResult());
  }

  function OtherResult(): Action -> real { (a: Action) => if a.kind == OtherKind then a.pnl else 0.0 }

  lemma {:induction false} SumSame(s: seq<Action>, f: Action -> real, g: Action -> real)
    requires forall k :: 0 <= k < |s| ==> f(s[k]) == g(s[k])
    ensures Sum(s, f) == Sum(s, g)
  {
    if s != [] {
      SumSame(s[..|s| - 1], f, g);
    }
  }

  // ----- Weeks

  function Id(): real -> real { (x: real) => x }

  function WeekEnd(t: int, e: int, k: nat): int {
    if t + k * WEEK_MS < e then t + k * WEEK_MS else e
  }

  /** The change over the `k`-th week of the window; the last week may be short. */
  ghost function WeekChange(c: Curve, t: int, e: int, k: nat): real
    requires |c.times| == |c.values|
  {
    Last(c, WeekEnd(t, e, k + 1)) - Last(c, WeekEnd(t, e, k))
  }

  lemma WeekEndSteps(t: int, e: int, k: nat)
    requires t + k * WEEK_MS < e
    ensures WeekEnd(t, e, k) == t + k * WEEK_MS
    ensures WeekEnd(t, e, k + 1) == if t + k * WEEK_MS + WEEK_MS < e then t + k * WEEK_MS + WEEK_MS else e
  {
  }

  method WeeklyChanges(c: Curve, t: int, e: int) returns (weeks: seq<real>)
    requires |c.times| == |c.values|
    ensures forall k :: 0 <= k < |weeks| ==> weeks[k] == WeekChange(c, t, e, k)
    ensures t < e ==> t + (|weeks| - 1) * WEEK_MS < e <= t + |weeks| * WEEK_MS
    ensures t <= e ==> Sum(weeks, Id()) == Last(c, e) - Last(c, t)
    ensures e <= t ==> weeks == []
  {
    hide Last;
    weeks := [];
    var previous, boundary := Last(c, t), t;
    while boundary < e
      invariant boundary == if |weeks| == 0 then t else WeekEnd(t, e, |weeks|)
      invariant |weeks| > 0 ==> t + (|weeks| - 1) * WEEK_MS < e
      invariant previous == Last(c, boundary)
      invariant forall k :: 0 <= k < |weeks| ==> weeks[k] == WeekChange(c, t, e, k)
      invariant Sum(weeks, Id()) == previous - Last(c, t)
      decreases e - boundary
    {
      WeekEndSteps(t, e, |weeks|);
      boundary := if boundary + WEEK_MS < e then boundary + WEEK_MS else e;
      var current := Last(c, boundary);
      SumSnoc(weeks, current - previous, Id());
      weeks := weeks + [current - previous];
      previous := current;
    }
  }

  /** The part of `forward_stats` that the check is about. */
  method ForwardCheck(actions: seq<Action>, initial: real, offset: real, limit: int, t: int, e: int)
    returns (check: Check)
    requires DistinctBy(actions, IdOf()) && t <= e
    ensures check.diff == Sum(Where(actions, InSpan(t, e)), Residual()) - Unseen(initial, Chain(actions), limit, t, e)
    ensures e <= limit && (forall k :: 0 <= k < |actions| ==> actions[k].balance.Some?) ==>
              check.diff == Sum(Where(actions, InSpan(t, e)), OtherResult())
    ensures check.delta == Last(BalanceCurve(actions, initial, offset, limit), e)
      - Last(BalanceCurve(actions, initial, offset, limit), t)
    ensures check.delta == Sum(check.weeks, Id())
    ensures forall k :: 0 <= k < |check.weeks| ==>
      check.weeks[k] == WeekChange(BalanceCurve(actions, initial, offset, limit), t, e, k)
    ensures check.diff == check.delta - (check.sumPnl - check.sumFee + check.sumFunding)
    ensures check.sumPnl == Sum(Where(actions, InSpan(t, e)), Realized())
    ensures check.sumFee == Sum(Where(actions, InSpan(t, e)), Fee())
  {
    var curve := BalanceCurve(actions, initial, offset, limit);
    var funding := FundingByAction(actions, initial);
    var window := Where(actions, InSpan(t, e));
    var sumPnl, sumFee, sumFunding := Sum(window, Realized()), Sum(window, Fee()), Sum(window, FundingOf(funding));
    ChainIsBalanced(actions);
    var weeks := WeeklyChanges(curve, t, e);
    var delta := Last(curve, e) - Last(curve, t);
    hide Sum, Where, Last, Sort, Before;
    CheckDifference(actions, initial, offset, limit, t, e, funding);
    if e <= limit && forall k :: 0 <= k < |actions| ==> actions[k].balance.Some? {
      CheckIsOtherResults(actions, initial, offset, limit, t, e, funding);
    }
    check := Check(delta, sumPnl, sumFee, sumFunding, delta - (sumPnl - sumFee + sumFunding), weeks);
  }
}
