/** The retry-once bridge to a process pool: whatever finishes before a pool breaks is kept, the
    rest is submitted once more, and results come back in index order. */
module BatchBridge {
  import opened Sorting
  import opened Wrappers

  datatype Failure = BrokenProcessPool | OtherError(name: string)

  datatype Answer = Accepted | Refused(failure: Failure) | SubmitInterrupted

  datatype Completion = Finished | Failed(failure: Failure) | Interrupted

  /** A pool decides, per run, how it answers each submission, in which order the accepted futures
      complete, and how each ends.  It may break at any point; nothing else is assumed of it. */
  datatype Pool = Pool(answer: (nat, nat) -> Answer, order: (nat, nat) -> seq<nat>, outcome: (nat, nat) -> Completion)

  ghost predicate Orders(s: seq<nat>, n: nat) {
    && (forall a, b :: 0 <= a < b < |s| ==> s[a] != s[b])
    && (forall k :: k in s <==> 0 <= k < n)
  }

  /** `as_completed` yields every accepted future exactly once. */
  ghost predicate Fair(pool: Pool) {
    forall run: nat, n: nat :: Orders(pool.order(run, n), n)
  }

  /** How many of `n` submissions a pool accepts before it refuses one. */
  function Leading(pool: Pool, run: nat, n: nat): (accepted: nat)
    ensures accepted <= n
  {
    if n == 0 then 0
    else
      var accepted := Leading(pool, run, n - 1);
      if accepted == n - 1 && pool.answer(run, n - 1) == Accepted then n else accepted
  }

  predicate SubmissionInterrupted(pool: Pool, run: nat, n: nat) {
    var accepted := Leading(pool, run, n);
    accepted < n && pool.answer(run, accepted) == SubmitInterrupted
  }

  /** A keyboard interrupt reaches the run, while submitting or while collecting. */
  ghost predicate Interrupts(pool: Pool, run: nat, n: nat) {
    || SubmissionInterrupted(pool, run, n)
    || exists future :: future in pool.order(run, Leading(pool, run, n)) && pool.outcome(run, future) == Interrupted
  }

  /** The refusal that ended the submissions, if one did. */
  function Refusal(pool: Pool, run: nat, n: nat): Option<Failure> {
    var accepted := Leading(pool, run, n);
    if accepted < n && pool.answer(run, accepted).Refused? then Some(pool.answer(run, accepted).failure) else None
  }

  function FirstFailed(pool: Pool, run: nat, order: seq<nat>, k: nat): Option<Failure>
    requires k <= |order|
  {
    if k == 0 then None
    else
      var earlier := FirstFailed(pool, run, order, k - 1);
      if earlier.Some? then earlier
      else if pool.outcome(run, order[k - 1]).Failed? then Some(pool.outcome(run, order[k - 1]).failure)
      else None
  }

  /** The failure a run is remembered by: the refusal, or else the first one to complete. */
  function RunFailure(pool: Pool, run: nat, n: nat): Option<Failure> {
    var order := pool.order(run, Leading(pool, run, n));
    if Refusal(pool, run, n).Some? then Refusal(pool, run, n) else FirstFailed(pool, run, order, |order|)
  }

  // ----- The same in terms of the answers and outcomes

  ghost predicate AllAccepted(pool: Pool, run: nat, n: nat) {
    forall i: nat :: i < n ==> pool.answer(run, i) == Accepted
  }

  /** The submissions before the k-th are accepted, and the k-th, if there is one, is not. */
  ghost predicate StopsAt(pool: Pool, run: nat, n: nat, k: nat) {
    k <= n && AllAccepted(pool, run, k) && (k < n ==> pool.answer(run, k) != Accepted)
  }

  lemma {:induction false} LeadingIs(pool: Pool, run: nat, n: nat)
    ensures forall k: nat :: StopsAt(pool, run, n, k) <==> k == Leading(pool, run, n)
  {
    if n > 0 {
      LeadingIs(pool, run, n - 1);
      var before := Leading(pool, run, n - 1);
      assert StopsAt(pool, run, n - 1, before);
      forall k: nat ensures StopsAt(pool, run, n, k) <==> k == Leading(pool, run, n) {
        assert StopsAt(pool, run, n - 1, k) <==> k == before;
        if before == n - 1 {
          assert AllAccepted(pool, run, n) <==> pool.answer(run, n - 1) == Accepted;
        }
      }
    }
  }

  /** The j-th future to complete fails, as none before it does. */
  ghost predicate FailsFirst(pool: Pool, run: nat, order: seq<nat>, j: nat, f: Failure) {
    j < |order| && pool.outcome(run, order[j]) == Failed(f)
      && forall i: nat :: i < j ==> !pool.outcome(run, order[i]).Failed?
  }

  lemma {:induction false} FirstFailedMeans(pool: Pool, run: nat, order: seq<nat>, n: nat)
    requires n <= |order|
    ensures forall f :: FirstFailed(pool, run, order, n) == Some(f) <==>
      exists j: nat :: j < n && FailsFirst(pool, run, order, j, f)
    ensures FirstFailed(pool, run, order, n) == None <==>
      forall i: nat :: i < n ==> !pool.outcome(run, order[i]).Failed?
  {
    if n > 0 {
      FirstFailedMeans(pool, run, order, n - 1);
      forall f ensures FirstFailed(pool, run, order, n) == Some(f) <==>
          exists j: nat :: j < n && FailsFirst(pool, run, order, j, f)
      {
        assert FirstFailed(pool, run, order, n - 1) == Some(f) <==>
          exists j: nat :: j < n - 1 && FailsFirst(pool, run, order, j, f);
        if FirstFailed(pool, run, order, n - 1) == None && pool.outcome(run, order[n - 1]) == Failed(f) {
          assert FailsFirst(pool, run, order, n - 1, f);
        }
      }
    }
  }

  /** The failure of a run with `k` accepted submissions: that of the refused submission, or otherwise that of the
      first future to fail, in the order of completion; and when an interrupt reaches it. */
  lemma RunMeans(pool: Pool, run: nat, n: nat, k: nat)
    requires StopsAt(pool, run, n, k)
    ensures Leading(pool, run, n) == k
    ensures k < n && pool.answer(run, k).Refused? ==> RunFailure(pool, run, n) == Some(pool.answer(run, k).failure)
    ensures (k == n || !pool.answer(run, k).Refused? ==> forall f :: RunFailure(pool, run, n) == Some(f) <==>
        exists j: nat :: FailsFirst(pool, run, pool.order(run, k), j, f))
    ensures (Interrupts(pool, run, n) <==>
        || (k < n && pool.answer(run, k) == SubmitInterrupted)
        || exists j: nat :: j < |pool.order(run, k)| && pool.outcome(run, pool.order(run, k)[j]) == Interrupted)
  {
    LeadingIs(pool, run, n);
    var order := pool.order(run, k);
    FirstFailedMeans(pool, run, order, |order|);
    hide FirstFailed, FailsFirst, Leading;
    if j: nat :| j < |order| && pool.outcome(run, order[j]) == Interrupted {
      assert order[j] in order;
    }
    forall f, j: nat | FailsFirst(pool, run, order, j, f) ensures j < |order| {
      FailsInside(pool, run, order, j, f);
    }
  }

  lemma FailsInside(pool: Pool, run: nat, order: seq<nat>, j: nat, f: Failure)
    requires FailsFirst(pool, run, order, j, f)
    ensures j < |order|
  {
  }

  /** The pool breaks: it refuses a submission because it is broken, or it takes all of them and the first future to
      fail does so because it is broken. */
  ghost predicate Breaks(pool: Pool, run: nat, n: nat) {
    || (exists k: nat :: k < n && AllAccepted(pool, run, k) && pool.answer(run, k) == Refused(BrokenProcessPool))
    || (AllAccepted(pool, run, n) && exists j: nat :: FailsFirst(pool, run, pool.order(run, n), j, BrokenProcessPool))
  }

  /** An interrupt arrives with a submission, or with one of the accepted futures. */
  ghost predicate InterruptArrives(pool: Pool, run: nat, n: nat) {
    || (exists k: nat :: k < n && AllAccepted(pool, run, k) && pool.answer(run, k) == SubmitInterrupted)
    || exists k: nat, j: nat :: StopsAt(pool, run, n, k) && j < |pool.order(run, k)|
         && pool.outcome(run, pool.order(run, k)[j]) == Interrupted
  }

  lemma RunMeansBroken(pool: Pool, run: nat, n: nat)
    ensures Interrupts(pool, run, n) <==> InterruptArrives(pool, run, n)
    ensures (!Interrupts(pool, run, n) ==>
        (RunFailure(pool, run, n) == Some(BrokenProcessPool) <==> Breaks(pool, run, n)))
  {
    var k := Leading(pool, run, n);
    LeadingIs(pool, run, n);
    assert StopsAt(pool, run, n, k);
    RunMeans(pool, run, n, k);
    hide Leading, RunFailure, Interrupts, FailsFirst;
    forall i: nat | i < n && AllAccepted(pool, run, i) && pool.answer(run, i) != Accepted ensures i == k {
      assert StopsAt(pool, run, n, i);
    }
    if AllAccepted(pool, run, n) {
      assert StopsAt(pool, run, n, n);
    }
  }

  datatype Task<M> = Task(index: int, members: M)

  datatype Run<R> = Completed(results: seq<(int, R)>, failure: Option<Failure>) | Aborted

  datatype Outcome<R> = Returned(results: seq<(int, R)>) | Raised(results: seq<(int, R)>, failure: Failure) | Killed

  /** The values of the futures that finished, in completion order. */
  function FinishedOf<M, R>(pool: Pool, run: nat, tasks: seq<Task<M>>, eval: M -> R): seq<(int, R)> {
    var order := pool.order(run, Leading(pool, run, |tasks|));
    FinishedBy(pool, run, tasks, eval, order, |order|)
  }

  function FinishedBy<M, R>(pool: Pool, run: nat, tasks: seq<Task<M>>, eval: M -> R, order: seq<nat>,
                            k: nat): seq<(int, R)>
    requires k <= |order|
  {
    if k == 0 then []
    else
      var earlier, future := FinishedBy(pool, run, tasks, eval, order, k - 1), order[k - 1];
      if future < |tasks| && pool.outcome(run, future) == Finished then earlier + [Value(tasks[future], eval)]
      else earlier
  }

  function Value<M, R>(t: Task<M>, eval: M -> R): (int, R) {
    (t.index, eval(t.members))
  }

  ghost predicate FinishedHere<M, R>(r: (int, R), pool: Pool, run: nat, tasks: seq<Task<M>>, eval: M -> R,
                                     future: nat) {
    future < |tasks| && pool.outcome(run, future) == Finished && r == Value(tasks[future], eval)
  }

  /** A result belongs to the run exactly when its future was accepted and finished. */
  lemma FinishedMeans<M, R>(pool: Pool, run: nat, tasks: seq<Task<M>>, eval: M -> R)
    requires Fair(pool)
    ensures forall r :: r in FinishedOf(pool, run, tasks, eval) <==>
              exists i: nat :: i < Leading(pool, run, |tasks|) && FinishedHere(r, pool, run, tasks, eval, i)
  {
    var n := Leading(pool, run, |tasks|);
    var order := pool.order(run, n);
    OrderIsBelow(pool, run, n);
    FinishedByMeans(pool, run, tasks, eval, order, |order|);
    forall r
      ensures r in FinishedOf(pool, run, tasks, eval) <==>
        exists i: nat :: i < n && FinishedHere(r, pool, run, tasks, eval, i)
    {
      if i: nat :| i < n && FinishedHere(r, pool, run, tasks, eval, i) {
        assert i in order;
        var j :| 0 <= j < |order| && order[j] == i;
      }
    }
  }

  lemma {:induction false} FinishedByMeans<M, R>(pool: Pool, run: nat, tasks: seq<Task<M>>, eval: M -> R,
                                                 order: seq<nat>, k: nat)
    requires k <= |order|
    ensures forall r :: r in FinishedBy(pool, run, tasks, eval, order, k) <==>
              exists j :: 0 <= j < k && FinishedHere(r, pool, run, tasks, eval, order[j])
  {
    if k > 0 {
      FinishedByMeans(pool, run, tasks, eval, order, k - 1);
    }
  }

  lemma FinishedStep<M, R>(pool: Pool, run: nat, tasks: seq<Task<M>>, eval: M -> R, order: seq<nat>, k: nat)
    requires k < |order| && order[k] < |tasks|
    ensures FinishedBy(pool, run, tasks, eval, order, k + 1) == FinishedBy(pool, run, tasks, eval, order, k)
              + if pool.outcome(run, order[k]) == Finished then [(tasks[order[k]].index, eval(tasks[order[k]].members))]
                else []
  {
  }

  lemma NothingFinishedYet<M, R>(pool: Pool, run: nat, tasks: seq<Task<M>>, eval: M -> R, order: seq<nat>)
    ensures FinishedBy(pool, run, tasks, eval, order, 0) == []
  {
  }

  lemma FinishedOfIs<M, R>(pool: Pool, run: nat, tasks: seq<Task<M>>, eval: M -> R, order: seq<nat>)
    requires order == pool.order(run, Leading(pool, run, |tasks|))
    ensures FinishedOf(pool, run, tasks, eval) == FinishedBy(pool, run, tasks, eval, order, |order|)
  {
  }

  function IsFinished(pool: Pool, run: nat): nat -> bool {
    (future: nat) => pool.outcome(run, future) == Finished
  }

  /** The results are the values of the finished futures, in the order in which these completed. */
  lemma FinishedInOrder<M, R>(pool: Pool, run: nat, tasks: seq<Task<M>>, eval: M -> R, k: nat) returns (at: seq<nat>)
    requires StopsAt(pool, run, |tasks|, k) && Fair(pool)
    ensures |at| == |FinishedOf(pool, run, tasks, eval)| && Ascending(at)
    ensures forall j: nat :: j in at <==>
      j < |pool.order(run, k)| && pool.outcome(run, pool.order(run, k)[j]) == Finished
    ensures forall i :: 0 <= i < |at| ==> at[i] < |pool.order(run, k)| && pool.order(run, k)[at[i]] < |tasks|
    ensures (forall i :: 0 <= i < |at| ==> var t := tasks[pool.order(run, k)[at[i]]];
        FinishedOf(pool, run, tasks, eval)[i] == (t.index, eval(t.members)))
  {
    LeadingIs(pool, run, |tasks|);
    OrderIsBelow(pool, run, k);
    var order := pool.order(run, k);
    at := Positions(order, IsFinished(pool, run));
    PositionsAre(order, IsFinished(pool, run));
    PositionsAscend(order, IsFinished(pool, run));
    assert order[..|order|] == order;
    FinishedAtPositions(pool, run, tasks, eval, order, |order|);
    FinishedOfIs(pool, run, tasks, eval, order);
    hide Positions, FinishedOf, FinishedBy, Ascending, Leading, Fair, StopsAt;
  }

  lemma {:induction false} FinishedAtPositions<M, R>(pool: Pool, run: nat, tasks: seq<Task<M>>, eval: M -> R,
                                                     order: seq<nat>, n: nat)
    requires n <= |order| && forall j :: 0 <= j < |order| ==> order[j] < |tasks|
    ensures |FinishedBy(pool, run, tasks, eval, order, n)| == |Positions(order[..n], IsFinished(pool, run))|
    ensures (forall i :: 0 <= i < |FinishedBy(pool, run, tasks, eval, order, n)| ==>
        var at := Positions(order[..n], IsFinished(pool, run));
        && at[i] < n
        && FinishedBy(pool, run, tasks, eval, order, n)[i]
           == (tasks[order[at[i]]].index, eval(tasks[order[at[i]]].members)))
  {
    if n > 0 {
      FinishedAtPositions(pool, run, tasks, eval, order, n - 1);
      FinishedStep(pool, run, tasks, eval, order, n - 1);
      assert order[..n][..n - 1] == order[..n - 1];
      hide FinishedBy;
    }
  }

  function IndexOf<M>(): Task<M> -> int { (t: Task<M>) => t.index }

  function ByIndex<M>(): Task<M> -> (int, int) { (t: Task<M>) => (t.index, 0) }

  function ResultIndex<R>(): ((int, R)) -> int { (r: (int, R)) => r.0 }

  function ResultKey<R>(): ((int, R)) -> (int, int) { (r: (int, R)) => (r.0, 0) }

  /** Every result is the value of some task under its index, and no index repeats. */
  ghost predicate ValuesOf<M, R>(results: seq<(int, R)>, tasks: seq<Task<M>>, eval: M -> R) {
    && (forall r :: r in results ==> IsValue(r, tasks, eval))
    && DistinctBy(results, ResultIndex())
  }

  ghost predicate IsValue<M, R>(r: (int, R), tasks: seq<Task<M>>, eval: M -> R) {
    exists t :: t in tasks && r == (t.index, eval(t.members))
  }

  ghost predicate Complete<M, R>(results: seq<(int, R)>, tasks: seq<Task<M>>, eval: M -> R) {
    forall t :: t in tasks ==> (t.index, eval(t.members)) in results
  }

  /** The values of all tasks in ascending index order. */
  function Answers<M, R>(tasks: seq<Task<M>>, eval: M -> R): (results: seq<(int, R)>)
    ensures |results| == |tasks|
  {
    var ordered := Sort(tasks, ByIndex());
    seq(|tasks|, k requires 0 <= k < |tasks| => (ordered[k].index, eval(ordered[k].members)))
  }

  lemma AnswersAreSorted<M, R>(tasks: seq<Task<M>>, eval: M -> R)
    requires DistinctBy(tasks, IndexOf())
    ensures SortedBy(Answers(tasks, eval), ResultKey()) && DistinctBy(Answers(tasks, eval), ResultIndex())
    ensures ValuesOf(Answers(tasks, eval), tasks, eval) && Complete(Answers(tasks, eval), tasks, eval)
  {
    var ordered, answers := Sort(tasks, ByIndex()), Answers(tasks, eval);
    SortIsSorted(tasks, ByIndex());
    SortDistinct(tasks, ByIndex(), IndexOf());
    forall a, b | 0 <= a <= b < |answers| ensures AtMost(ResultKey()(answers[a]), ResultKey()(answers[b])) {
      assert AtMost(ByIndex()(ordered[a]), ByIndex()(ordered[b]));
    }
    forall a, b | 0 <= a < b < |answers| ensures ResultIndex()(answers[a]) != ResultIndex()(answers[b]) {
      assert IndexOf()(ordered[a]) != IndexOf()(ordered[b]);
    }
    forall r | r in answers ensures IsValue(r, tasks, eval) {
      var k :| 0 <= k < |answers| && answers[k] == r;
      assert ordered[k] in multiset(ordered) && ordered[k] in tasks
        && r == (ordered[k].index, eval(ordered[k].members));
    }
    forall t | t in tasks ensures (t.index, eval(t.members)) in answers {
      var k :| 0 <= k < |ordered| && ordered[k] == t;
      assert answers[k] == (t.index, eval(t.members));
    }
  }

  /** The answers hold the value of every task and nothing else, by strictly ascending index. */
  lemma AnswersMean<M, R>(tasks: seq<Task<M>>, eval: M -> R)
    requires forall i, j :: 0 <= i < j < |tasks| ==> tasks[i].index != tasks[j].index
    ensures forall a, b :: 0 <= a < b < |Answers(tasks, eval)| ==> Answers(tasks, eval)[a].0 < Answers(tasks, eval)[b].0
    ensures forall t :: t in tasks ==> (t.index, eval(t.members)) in Answers(tasks, eval)
    ensures forall r :: r in Answers(tasks, eval) ==> exists t :: t in tasks && r == (t.index, eval(t.members))
  {
    var answers := Answers(tasks, eval);
    AnswersAreSorted(tasks, eval);
    hide Answers;
    forall a, b | 0 <= a < b < |answers| ensures answers[a].0 < answers[b].0 {
      assert AtMost(ResultKey()(answers[a]), ResultKey()(answers[b]));
      assert ResultIndex()(answers[a]) != ResultIndex()(answers[b]);
    }
    forall r | r in answers ensures exists t :: t in tasks && r == (t.index, eval(t.members)) {
      assert IsValue(r, tasks, eval);
    }
  }

  /** Complete values, sorted, can only be the answers. */
  lemma SortedValuesAreAnswers<M, R(!new)>(results: seq<(int, R)>, tasks: seq<Task<M>>, eval: M -> R)
    requires DistinctBy(tasks, IndexOf()) && ValuesOf(results, tasks, eval) && Complete(results, tasks, eval)
    ensures Sort(results, ResultKey()) == Answers(tasks, eval)
  {
    var sorted, answers := Sort(results, ResultKey()), Answers(tasks, eval);
    AnswersAreSorted(tasks, eval);
    SortIsSorted(results, ResultKey());
    SortDistinct(results, ResultKey(), ResultIndex());
    forall r ensures r in sorted <==> r in answers {
      if r in sorted {
        assert IsValue(r, tasks, eval);
      }
      if r in answers {
        assert IsValue(r, tasks, eval);
      }
    }
    SortedUnique(sorted, answers, ResultKey(), ResultIndex());
  }

  function Indices<M>(tasks: seq<Task<M>>): (indices: seq<int>)
    ensures |indices| == |tasks|
  {
    seq(|tasks|, k requires 0 <= k < |tasks| => tasks[k].index)
  }

  class Bridge<M, R(!new)> {
    const eval: M -> R
    var pool: Pool
    var spare: Pool
    var runs: nat
    var closed: bool
    ghost var submitted: seq<int>

    constructor (eval: M -> R, pool: Pool, spare: Pool)
      ensures this.eval == eval && this.pool == pool && this.spare == spare && submitted == [] && !closed
    {
      this.eval, this.pool, this.spare, runs, closed, submitted := eval, pool, spare, 0, false, [];
    }

    method Close()
      modifies this`closed
      ensures closed
    {
      closed := true;
    }

    method ReplacePool()
      modifies this`pool
      ensures pool == spare
    {
      pool := spare;
    }

    /** Submit in order until the pool refuses; `accepted` tasks are then in flight. */
    method SubmitAll(tasks: seq<Task<M>>) returns (accepted: nat, failure: Option<Failure>, aborted: bool)
      modifies this`submitted, this`closed
      ensures accepted <= |tasks| && submitted == old(submitted) + Indices(tasks[..accepted])
      ensures if aborted then closed else closed == old(closed) && (failure == None <==> accepted == |tasks|)
      ensures accepted == Leading(pool, runs, |tasks|) && aborted == SubmissionInterrupted(pool, runs, |tasks|)
      ensures failure == Refusal(pool, runs, |tasks|)
      ensures !aborted && accepted < |tasks| ==> failure.Some? && pool.answer(runs, accepted) == Refused(failure.value)
    {
      accepted, failure, aborted := 0, None, false;
      while accepted < |tasks|
        invariant accepted <= |tasks| && submitted == old(submitted) + Indices(tasks[..accepted])
        invariant failure == None && !aborted && closed == old(closed) && Leading(pool, runs, accepted) == accepted
      {
        LeadingStops(pool, runs, accepted, |tasks|);
        match pool.answer(runs, accepted) {
          case SubmitInterrupted =>
            Close();
            aborted := true;
            return;
          case Refused(f) =>
            failure := Some(f);
            return;
          case Accepted =>
            submitted := submitted + [tasks[accepted].index];
            accepted := accepted + 1;
        }
      }
    }

    /** One submission round: the results that finished, and the first failure if there was any. */
    method RunOnce(tasks: seq<Task<M>>) returns (run: Run<R>, ghost accepted: nat)
      requires Fair(pool) && DistinctBy(tasks, IndexOf())
      modifies this`submitted, this`closed, this`runs
      ensures accepted == Leading(pool, old(runs), |tasks|) && submitted == old(submitted) + Indices(tasks[..accepted])
      ensures if run.Aborted? then closed else closed == old(closed)
      ensures run.Aborted? <==> Interrupts(pool, old(runs), |tasks|)
      ensures run.Completed? ==> run.results == FinishedOf(pool, old(runs), tasks, eval)
      ensures run.Completed? ==> runs == old(runs) + 1 && run.failure == RunFailure(pool, old(runs), |tasks|)
      ensures run.Completed? ==> ValuesOf(run.results, tasks, eval) && AmongFirst(run.results, tasks, accepted)
      ensures run.Completed? ==> (run.failure == None <==> Complete(run.results, tasks, eval))
    {
      hide *;
      var n, failure, aborted := SubmitAll(tasks);
      accepted := n;
      if aborted {
        InterruptedEarly(pool, runs, |tasks|);
        return Aborted, accepted;
      }
      var order := pool.order(runs, n);
      OrderIsBelow(pool, runs, n);
      ghost var refusal, log := failure, submitted;
      ghost var lost: nat := n;
      var results: seq<(int, R)> := [];
      GatheredAtStart(tasks, eval, order, n, failure);
      NothingFailedYet(pool, runs, order);
      NothingFinishedYet(pool, runs, tasks, eval, order);
      for k := 0 to |order|
        invariant Gathered(results, tasks, eval, order, n, k, failure, lost) && submitted == log && runs == old(runs)
        invariant closed == old(closed)
        invariant failure == if refusal.Some? then refusal else FirstFailed(pool, runs, order, k)
        invariant forall j :: 0 <= j < k ==> pool.outcome(runs, order[j]) != Interrupted
        invariant results == FinishedBy(pool, runs, tasks, eval, order, k)
      {
        var outcome := pool.outcome(runs, order[k]);
        FirstFailedStep(pool, runs, order, k);
        FinishedStep(pool, runs, tasks, eval, order, k);
        if outcome == Interrupted {
          InterruptedHere(pool, runs, |tasks|, order, k);
          Close();
          runs := runs + 1;
          return Aborted, accepted;
        }
        if outcome == Finished {
          GatherFinished(results, tasks, eval, order, n, k, failure, lost);
          results := results + [(tasks[order[k]].index, eval(tasks[order[k]].members))];
        } else {
          GatherFailed(results, tasks, eval, order, n, k, failure, lost, outcome.failure);
          if failure == None {
            failure := Some(outcome.failure);
            lost := order[k];
          }
        }
      }
      NotInterrupted(pool, runs, |tasks|, order);
      RunFailureIs(pool, runs, |tasks|, refusal);
      FinishedOfIs(pool, runs, tasks, eval, order);
      runs := runs + 1;
      run := Completed(results, failure);
      GatheredMeans(results, tasks, eval, order, n, failure, lost);
    }

    /** Submit what is missing to the current pool and append what that run finished. */
    method Retry(tasks: seq<Task<M>>, kept: seq<(int, R)>) returns (run: Run<R>, ghost again: seq<int>)
      requires Fair(pool) && DistinctBy(tasks, IndexOf()) && ValuesOf(kept, tasks, eval)
      modifies this`submitted, this`closed, this`runs
      ensures submitted == old(submitted) + again && (forall index :: multiset(again)[index] <= 1)
      ensures again == Indices(Missing(tasks, kept)[..Leading(pool, old(runs), |Missing(tasks, kept)|)])
      ensures forall index :: index in Done(kept) ==> index !in again
      ensures if run.Aborted? then closed else closed == old(closed)
      ensures run.Aborted? <==> Interrupts(pool, old(runs), |Missing(tasks, kept)|)
      ensures run.Completed? ==> run.failure == RunFailure(pool, old(runs), |Missing(tasks, kept)|)
      ensures run.Completed? ==> run.results == kept + FinishedOf(pool, old(runs), Missing(tasks, kept), eval)
      ensures run.Completed? ==> ValuesOf(run.results, tasks, eval)
      ensures run.Completed? ==> (run.failure == None <==> Complete(run.results, tasks, eval))
    {
      var missing := Missing(tasks, kept);
      MissingIsDistinct(tasks, kept);
      ghost var m;
      run, m := RunOnce(missing);
      again := Indices(missing[..m]);
      SubmittedOnce(missing, m);
      forall index | index in again ensures index !in Done(kept) {
        var k :| 0 <= k < |again| && again[k] == index;
        assert missing[k] in missing;
      }
      hide Done, ValuesOf, Complete, Sorting.DistinctBy, Missing, Indices, Fair, IsValue, Interrupts;
      hide RunFailure, FinishedOf;
      if run.Completed? {
        JoinValues(tasks, kept, missing, run.results, eval);
        JoinComplete(tasks, kept, missing, run.results, eval);
        run := run.(results := kept + run.results);
      }
    }

    /** The bridge: run, replace a broken pool once, run what is missing, and put results in order.
        `kept` is what had finished when the first pool broke. */
    method Call(tasks: seq<Task<M>>) returns (result: Outcome<R>, ghost retried: bool, ghost kept: seq<(int, R)>)
      requires Fair(pool) && Fair(spare) && DistinctBy(tasks, IndexOf()) && submitted == []
      modifies this
      ensures result.Returned? ==> result.results == Answers(tasks, eval)
      ensures result.Raised? ==> ValuesOf(result.results, tasks, eval) && !Complete(result.results, tasks, eval)
      ensures kept == if retried then FinishedOf(old(pool), old(runs), tasks, eval) else []
      ensures result.Raised? && !retried ==> result.results == FinishedOf(old(pool), old(runs), tasks, eval)
      ensures result.Raised? && retried ==>
        result.results == kept + FinishedOf(spare, old(runs) + 1, Missing(tasks, kept), eval)
      ensures submitted == Indices(tasks[..Leading(old(pool), old(runs), |tasks|)])
                + if retried then Indices(Missing(tasks, kept)[..Leading(spare, old(runs) + 1, |Missing(tasks, kept)|)])
                  else []
      ensures retried <==>
        !InterruptArrives(old(pool), old(runs), |tasks|) && Breaks(old(pool), old(runs), |tasks|)
      ensures result.Killed? <==>
        (InterruptArrives(old(pool), old(runs), |tasks|)
          || (retried && InterruptArrives(spare, old(runs) + 1, |Missing(tasks, kept)|)))
      ensures result.Raised? ==>
        Some(result.failure) == (if retried then RunFailure(spare, old(runs) + 1, |Missing(tasks, kept)|)
                                 else RunFailure(old(pool), old(runs), |tasks|))
      ensures if result.Killed? then closed else closed == old(closed)
      ensures forall index :: multiset(submitted)[index] <= if retried then 2 else 1
      ensures retried ==> forall index :: index in Done(kept) ==> multiset(submitted)[index] == 1
      ensures pool == if retried then spare else old(pool)
    {
      hide Done, ValuesOf, Complete, Sorting.DistinctBy, Missing, Fair, IsValue, Answers, Sorting.Sort;
      hide Indices, Interrupts, RunFailure, FinishedOf, Leading, InterruptArrives, Breaks;
      RunMeansBroken(pool, runs, |tasks|);
      ghost var n;
      var run;
      retried, kept := false, [];
      run, n := RunOnce(tasks);
      ghost var once := Indices(tasks[..n]);
      SubmittedOnce(tasks, n);
      assert submitted == once;
      if run.Completed? && run.failure == Some(BrokenProcessPool) {
        ReplacePool();
        var done := run.results;
        retried, kept := true, done;
        KeptWereSubmitted(kept, tasks, n);
        ghost var again;
        RunMeansBroken(pool, runs, |Missing(tasks, done)|);
        run, again := Retry(tasks, done);
        SubmittedTwice(once, again, kept);
      }
      if run.Aborted? {
        return Killed, retried, kept;
      }
      if run.failure.Some? {
        return Raised(run.results, run.failure.value), retried, kept;
      }
      SortedValuesAreAnswers(run.results, tasks, eval);
      return Returned(Sort(run.results, ResultKey())), retried, kept;
    }
  }

  lemma {:induction false} LeadingStops(pool: Pool, run: nat, k: nat, n: nat)
    requires k < n && Leading(pool, run, k) == k
    ensures if pool.answer(run, k) == Accepted then Leading(pool, run, k + 1) == k + 1 else Leading(pool, run, n) == k
    decreases n
  {
    if k + 1 < n {
      LeadingStops(pool, run, k, n - 1);
    }
  }

  /** What a run knows after `k` completions: the results are values of finished tasks, each index once;
      without a failure all are there, and with one the value at `lost` is missing. */
  ghost predicate Gathered<M, R>(results: seq<(int, R)>, tasks: seq<Task<M>>, eval: M -> R, order: seq<nat>, n: nat,
                                 k: nat, failure: Option<Failure>, lost: nat)
  {
    && n <= |tasks| && k <= |order| && Orders(order, n) && (forall j :: 0 <= j < |order| ==> order[j] < n)
    && DistinctBy(tasks, IndexOf()) && DistinctBy(results, ResultIndex())
    && (forall r :: r in results ==> FinishedAt(r, tasks, eval, order, k))
    && (failure == None ==> n == |tasks| && forall j :: 0 <= j < k ==>
      (tasks[order[j]].index, eval(tasks[order[j]].members)) in results)
    && (failure != None ==> lost < |tasks| && LostBefore(lost, n, order, k) && forall i :: 0 <= i < |results| ==>
      results[i].0 != tasks[lost].index)
  }

  /** The position whose failure was noted is the one the pool refused or one already completed. */
  ghost predicate LostBefore(lost: nat, n: nat, order: seq<nat>, k: nat) {
    lost == n || exists j :: 0 <= j < k <= |order| && order[j] == lost
  }

  lemma OrderIsBelow(pool: Pool, run: nat, n: nat)
    requires Fair(pool)
    ensures Orders(pool.order(run, n), n) && forall j :: 0 <= j < |pool.order(run, n)| ==> pool.order(run, n)[j] < n
  {
    var order := pool.order(run, n);
    assert Orders(order, n);
    assert forall j :: 0 <= j < |order| ==> order[j] in order;
  }

  lemma InterruptedEarly(pool: Pool, run: nat, n: nat)
    requires SubmissionInterrupted(pool, run, n)
    ensures Interrupts(pool, run, n)
  {
  }

  lemma GatheredAtStart<M, R>(tasks: seq<Task<M>>, eval: M -> R, order: seq<nat>, n: nat, failure: Option<Failure>)
    requires n <= |tasks| && Orders(order, n)
    requires (forall j :: 0 <= j < |order| ==> order[j] < n) && DistinctBy(tasks, IndexOf())
    requires failure == None <==> n == |tasks|
    ensures Gathered<M, R>([], tasks, eval, order, n, 0, failure, n)
  {
  }

  lemma NothingFailedYet(pool: Pool, run: nat, order: seq<nat>)
    ensures FirstFailed(pool, run, order, 0) == None
  {
  }

  lemma FirstFailedStep(pool: Pool, run: nat, order: seq<nat>, k: nat)
    requires k < |order|
    ensures FirstFailed(pool, run, order, k + 1) ==
      if FirstFailed(pool, run, order, k).Some? then FirstFailed(pool, run, order, k)
      else if pool.outcome(run, order[k]).Failed? then Some(pool.outcome(run, order[k]).failure)
      else None
  {
  }

  lemma InterruptedHere(pool: Pool, run: nat, n: nat, order: seq<nat>, k: nat)
    requires order == pool.order(run, Leading(pool, run, n)) && k < |order|
    requires pool.outcome(run, order[k]) == Interrupted
    ensures Interrupts(pool, run, n)
  {
    assert order[k] in order;
  }

  lemma NotInterrupted(pool: Pool, run: nat, n: nat, order: seq<nat>)
    requires order == pool.order(run, Leading(pool, run, n)) && !SubmissionInterrupted(pool, run, n)
    requires forall j :: 0 <= j < |order| ==> pool.outcome(run, order[j]) != Interrupted
    ensures !Interrupts(pool, run, n)
  {
  }

  lemma RunFailureIs(pool: Pool, run: nat, n: nat, refusal: Option<Failure>)
    requires refusal == Refusal(pool, run, n)
    ensures RunFailure(pool, run, n) ==
      if refusal.Some? then refusal
      else FirstFailed(pool, run, pool.order(run, Leading(pool, run, n)), |pool.order(run, Leading(pool, run, n))|)
  {
  }

  lemma GatherFinished<M, R>(results: seq<(int, R)>, tasks: seq<Task<M>>, eval: M -> R, order: seq<nat>, n: nat, k: nat,
                             failure: Option<Failure>, lost: nat)
    requires k < |order| && Gathered(results, tasks, eval, order, n, k, failure, lost)
    ensures order[k] < |tasks|
    ensures Gathered(results + [(tasks[order[k]].index, eval(tasks[order[k]].members))], tasks, eval, order, n, k + 1,
        failure, lost)
  {
    var future := order[k];
    FreshIndex(results, tasks, eval, order, k);
    if failure != None {
      assert future in order && lost != future;
      assert lost < future ==> IndexOf()(tasks[lost]) != IndexOf()(tasks[future]);
      assert future < lost ==> IndexOf()(tasks[future]) != IndexOf()(tasks[lost]);
    }
  }

  lemma GatherFailed<M, R>(results: seq<(int, R)>, tasks: seq<Task<M>>, eval: M -> R, order: seq<nat>, n: nat, k: nat,
                           failure: Option<Failure>, lost: nat, reason: Failure)
    requires k < |order| && Gathered(results, tasks, eval, order, n, k, failure, lost)
    ensures failure == None ==> Gathered(results, tasks, eval, order, n, k + 1, Some(reason), order[k])
    ensures failure != None ==> Gathered(results, tasks, eval, order, n, k + 1, failure, lost)
  {
    FreshIndex(results, tasks, eval, order, k);
  }

  lemma GatheredMeans<M, R>(results: seq<(int, R)>, tasks: seq<Task<M>>, eval: M -> R, order: seq<nat>, n: nat,
                            failure: Option<Failure>, lost: nat)
    requires Gathered(results, tasks, eval, order, n, |order|, failure, lost)
    ensures ValuesOf(results, tasks, eval) && AmongFirst(results, tasks, n)
    ensures failure == None <==> Complete(results, tasks, eval)
  {
    FinishedAmongFirst(results, tasks, eval, order, n);
    if failure == None {
      AllFinished(results, tasks, eval, order);
    } else {
      NotAmong(results, tasks, eval, lost);
    }
  }

  /** Every result belongs to one of the first `n` tasks. */
  ghost predicate AmongFirst<M, R>(results: seq<(int, R)>, tasks: seq<Task<M>>, n: nat) {
    n <= |tasks| && forall r :: r in results ==> r.0 in Indices(tasks[..n])
  }

  lemma FinishedAmongFirst<M, R>(results: seq<(int, R)>, tasks: seq<Task<M>>, eval: M -> R, order: seq<nat>, n: nat)
    requires n <= |tasks| && forall j :: 0 <= j < |order| ==> order[j] < n
    requires forall r :: r in results ==> FinishedAt(r, tasks, eval, order, |order|)
    ensures forall r :: r in results ==> IsValue(r, tasks, eval)
    ensures AmongFirst(results, tasks, n)
  {
    forall r | r in results ensures IsValue(r, tasks, eval) && r.0 in Indices(tasks[..n]) {
      var j :| 0 <= j < |order| && order[j] < |tasks| && r == (tasks[order[j]].index, eval(tasks[order[j]].members));
      assert Indices(tasks[..n])[order[j]] == r.0 && tasks[order[j]] in tasks;
    }
  }

  lemma AllFinished<M, R>(results: seq<(int, R)>, tasks: seq<Task<M>>, eval: M -> R, order: seq<nat>)
    requires Orders(order, |tasks|) && forall j :: 0 <= j < |order| ==> order[j] < |tasks|
    requires forall j :: 0 <= j < |order| ==> (tasks[order[j]].index, eval(tasks[order[j]].members)) in results
    ensures Complete(results, tasks, eval)
  {
    forall t | t in tasks ensures (t.index, eval(t.members)) in results {
      var p :| 0 <= p < |tasks| && tasks[p] == t;
      assert p in order;
      var j :| 0 <= j < |order| && order[j] == p;
    }
  }

  lemma NotAmong<M, R>(results: seq<(int, R)>, tasks: seq<Task<M>>, eval: M -> R, lost: nat)
    requires lost < |tasks| && forall i :: 0 <= i < |results| ==> results[i].0 != tasks[lost].index
    ensures !Complete(results, tasks, eval)
  {
    assert tasks[lost] in tasks;
    assert (tasks[lost].index, eval(tasks[lost].members)) !in results;
  }

  lemma KeptWereSubmitted<M, R>(kept: seq<(int, R)>, tasks: seq<Task<M>>, n: nat)
    requires AmongFirst(kept, tasks, n)
    ensures forall index :: index in Done(kept) ==> index in Indices(tasks[..n])
  {
    assert forall k :: 0 <= k < |kept| ==> kept[k] in kept;
  }

  /** `r` is the value of a task whose future is among the first `n` completed. */
  ghost predicate FinishedAt<M, R>(r: (int, R), tasks: seq<Task<M>>, eval: M -> R, order: seq<nat>, n: nat) {
    exists j :: 0 <= j < n <= |order| && order[j] < |tasks|
      && r == (tasks[order[j]].index, eval(tasks[order[j]].members))
  }

  lemma FreshIndex<M, R>(results: seq<(int, R)>, tasks: seq<Task<M>>, eval: M -> R, order: seq<nat>, k: nat)
    requires DistinctBy(tasks, IndexOf()) && k < |order| && forall j :: 0 <= j < |order| ==> order[j] < |tasks|
    requires forall a, b :: 0 <= a < b < |order| ==> order[a] != order[b]
    requires forall r :: r in results ==> FinishedAt(r, tasks, eval, order, k)
    ensures forall i :: 0 <= i < |results| ==> results[i].0 != tasks[order[k]].index
  {
    forall i | 0 <= i < |results| ensures results[i].0 != tasks[order[k]].index {
      assert results[i] in results;
      var j :| 0 <= j < k && results[i] == (tasks[order[j]].index, eval(tasks[order[j]].members));
      assert order[j] < order[k] ==> IndexOf()(tasks[order[j]]) != IndexOf()(tasks[order[k]]);
      assert order[k] < order[j] ==> IndexOf()(tasks[order[k]]) != IndexOf()(tasks[order[j]]);
    }
  }

  function Done<R>(results: seq<(int, R)>): set<int> {
    set k | 0 <= k < |results| :: results[k].0
  }

  /** `tuple(task for task in tasks if task[0] not in done)`. */
  function Missing<M, R>(tasks: seq<Task<M>>, results: seq<(int, R)>): seq<Task<M>> {
    Where(tasks, NotIn(Done(results)))
  }

  /** The tasks that are submitted again: those that have no result yet under their index, in their order. */
  lemma MissingMeans<M, R>(tasks: seq<Task<M>>, results: seq<(int, R)>) returns (at: seq<nat>)
    ensures |at| == |Missing(tasks, results)| && Ascending(at)
    ensures forall i :: 0 <= i < |at| ==> at[i] < |tasks| && Missing(tasks, results)[i] == tasks[at[i]]
    ensures forall k: nat :: k in at <==> k < |tasks| && forall r :: r in results ==> r.0 != tasks[k].index
  {
    at := WherePositions(tasks, NotIn(Done(results)));
    forall k: nat | k < |tasks|
      ensures tasks[k].index in Done(results) <==> exists r :: r in results && r.0 == tasks[k].index
    {
    }
  }

  function NotIn<M>(done: set<int>): Task<M> -> bool { (t: Task<M>) => t.index !in done }

  lemma MissingIsDistinct<M, R>(tasks: seq<Task<M>>, results: seq<(int, R)>)
    requires DistinctBy(tasks, IndexOf())
    ensures DistinctBy(Missing(tasks, results), IndexOf())
  {
    WhereDistinct(tasks, NotIn(Done(results)), IndexOf());
  }

  /** Results of both runs are values of the original tasks, each index at most once. */
  lemma JoinValues<M, R>(tasks: seq<Task<M>>, a: seq<(int, R)>, missing: seq<Task<M>>, b: seq<(int, R)>, eval: M -> R)
    requires missing == Missing(tasks, a) && ValuesOf(a, tasks, eval) && ValuesOf(b, missing, eval)
    ensures ValuesOf(a + b, tasks, eval)
  {
    forall r | r in a + b ensures IsValue(r, tasks, eval) {
      if r !in a {
        assert r in b && IsValue(r, missing, eval);
      }
    }
    forall i, j | 0 <= i < j < |a + b| ensures ResultIndex()((a + b)[i]) != ResultIndex()((a + b)[j]) {
      if i < |a| <= j {
        assert b[j - |a|] in b && IsValue(b[j - |a|], missing, eval);
        assert a[i].0 in Done(a);
      } else if j < |a| {
        assert ResultIndex()(a[i]) != ResultIndex()(a[j]);
      } else {
        assert ResultIndex()(b[i - |a|]) != ResultIndex()(b[j - |a|]);
      }
    }
  }

  lemma JoinComplete<M, R>(tasks: seq<Task<M>>, a: seq<(int, R)>, missing: seq<Task<M>>, b: seq<(int, R)>, eval: M -> R)
    requires DistinctBy(tasks, IndexOf())
    requires missing == Missing(tasks, a) && ValuesOf(a, tasks, eval) && ValuesOf(b, missing, eval)
    ensures Complete(b, missing, eval) <==> Complete(a + b, tasks, eval)
  {
    if Complete(b, missing, eval) {
      forall t | t in tasks ensures (t.index, eval(t.members)) in a + b {
        if t.index in Done(a) {
          var k :| 0 <= k < |a| && a[k].0 == t.index;
          assert a[k] in a && IsValue(a[k], tasks, eval);
          var u :| u in tasks && a[k] == (u.index, eval(u.members));
          SameTask(tasks, t, u);
        } else {
          WhereHas(tasks, NotIn(Done(a)), t);
        }
      }
    }
    if Complete(a + b, tasks, eval) {
      forall t | t in missing ensures (t.index, eval(t.members)) in b {
        var r := (t.index, eval(t.members));
        assert t in tasks && NotIn(Done(a))(t);
        forall k | 0 <= k < |a| ensures a[k] != r {
          assert a[k].0 in Done(a);
        }
        assert r in a + b;
      }
    }
  }

  lemma SameTask<M>(tasks: seq<Task<M>>, t: Task<M>, u: Task<M>)
    requires DistinctBy(tasks, IndexOf()) && t in tasks && u in tasks && t.index == u.index
    ensures t == u
  {
    var i :| 0 <= i < |tasks| && tasks[i] == t;
    var j :| 0 <= j < |tasks| && tasks[j] == u;
    assert IndexOf()(tasks[i]) == IndexOf()(tasks[j]);
  }

  lemma {:induction false} DistinctCounts(s: seq<int>)
    requires forall i, j :: 0 <= i < j < |s| ==> s[i] != s[j]
    ensures forall x :: multiset(s)[x] <= 1
  {
    if s != [] {
      var most, last := s[..|s| - 1], s[|s| - 1];
      DistinctCounts(most);
      assert s == most + [last] && last !in most;
    }
  }

  lemma SubmittedOnce<M>(tasks: seq<Task<M>>, n: nat)
    requires DistinctBy(tasks, IndexOf()) && n <= |tasks|
    ensures forall index :: multiset(Indices(tasks[..n]))[index] <= 1
  {
    var indices := Indices(tasks[..n]);
    forall i, j | 0 <= i < j < |indices| ensures indices[i] != indices[j] {
      assert IndexOf()(tasks[i]) != IndexOf()(tasks[j]);
    }
    DistinctCounts(indices);
  }

  lemma SubmittedTwice<R>(once: seq<int>, again: seq<int>, kept: seq<(int, R)>)
    requires (forall x :: multiset(once)[x] <= 1) && (forall x :: multiset(again)[x] <= 1)
    requires forall x :: x in Done(kept) ==> x in once && x !in again
    ensures forall x :: multiset(once + again)[x] <= 2
    ensures forall x :: x in Done(kept) ==> multiset(once + again)[x] == 1
  {
    assert multiset(once + again) == multiset(once) + multiset(again);
    forall x | x in Done(kept) ensures multiset(once + again)[x] == 1 {
      assert x in multiset(once) && x !in multiset(again);
    }
  }
}
