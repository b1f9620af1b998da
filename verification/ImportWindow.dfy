/** The submission window of the v4 importer: which files have been submitted, which are in flight
    and which have completed, and how many may be in flight at once. */
module ImportWindow {

  ghost predicate Distinct(s: seq<nat>) {
    forall a, b :: 0 <= a < b < |s| ==> s[a] != s[b]
  }

  ghost predicate Drawn(batch: seq<nat>, inFlight: set<nat>) {
    batch != [] && Distinct(batch) && forall k :: k in batch ==> k in inFlight
  }

  ghost function Members(s: seq<nat>): set<nat> {
    set k | k in s
  }

  function UpTo(n: nat): seq<nat> {
    seq(n, i => i)
  }

  ghost function Below(n: nat): set<nat> {
    Members(UpTo(n))
  }

  lemma {:induction false} DistinctSize(s: seq<nat>)
    requires Distinct(s)
    ensures |Members(s)| == |s|
  {
    if s != [] {
      var most, last := s[..|s| - 1], s[|s| - 1];
      DistinctSize(most);
      assert s == most + [last];
      assert Members(s) == Members(most) + {last};
    }
  }

  lemma BelowSize(n: nat)
    ensures |Below(n)| == n
    ensures forall k :: k in Below(n) <==> 0 <= k < n
  {
    DistinctSize(UpTo(n));
    forall k ensures k in UpTo(n) <==> 0 <= k < n {
      assert 0 <= k < n ==> UpTo(n)[k] == k;
    }
  }

  lemma {:induction false} SubsetSize(a: set<nat>, b: set<nat>)
    requires a <= b
    ensures |a| <= |b|
  {
    assert b == a + (b - a);
  }

  /** Submitted files are either in flight or completed, each once. */
  ghost predicate Scheduled(order: seq<nat>, inFlight: set<nat>, next: nat, count: nat) {
    && next <= count
    && Distinct(order)
    && (forall k :: k in order ==> k < next && k !in inFlight)
    && (forall k :: k in inFlight ==> k < next)
    && (forall k :: 0 <= k < next ==> k in order || k in inFlight)
  }

  lemma ScheduledDrain(order: seq<nat>, inFlight: set<nat>, batch: seq<nat>, next: nat, count: nat)
    requires Drawn(batch, inFlight) && Scheduled(order, inFlight, next, count)
    ensures Scheduled(order + batch, inFlight - Members(batch), next, count)
    ensures forall k :: 0 <= k < |batch| ==> batch[k] < next
  {
    var longer := order + batch;
    assert forall k :: 0 <= k < |batch| ==> batch[k] in batch;
    assert forall k :: k in longer <==> k in order || k in batch;
    forall a, b | 0 <= a < b < |longer| ensures longer[a] != longer[b] {
      if a < |order| <= b {
        assert order[a] in order && batch[b - |order|] in batch;
      }
    }
  }

  /** Completed and in-flight files together are the submitted ones. */
  lemma ScheduledLength(order: seq<nat>, inFlight: set<nat>, next: nat, count: nat)
    requires Scheduled(order, inFlight, next, count)
    ensures |order| + |inFlight| == next <= count
  {
    DistinctSize(order);
    BelowSize(next);
    assert Members(order) + inFlight == Below(next);
  }

  lemma FullOrderCoversAll(order: seq<nat>, n: nat)
    requires Distinct(order) && |order| == n && forall k :: k in order ==> k < n
    ensures forall k :: 0 <= k < n ==> k in order
  {
    DistinctSize(order);
    BelowSize(n);
    var rest := Below(n) - Members(order);
    assert Below(n) == Members(order) + rest;
    assert |Members(order) + rest| == |Members(order)| + |rest|;
    assert rest == {};
    forall k | 0 <= k < n ensures k in order {
      assert k in Below(n) && k !in rest;
    }
  }

  // ----- The log of submissions and completions

  datatype Event = Submission(file: nat) | Completion(file: nat)

  ghost function Submissions(log: seq<Event>): seq<nat> {
    if log == [] then []
    else Submissions(log[..|log| - 1]) + if log[|log| - 1].Submission? then [log[|log| - 1].file] else []
  }

  ghost function Completions(log: seq<Event>): seq<nat> {
    if log == [] then []
    else Completions(log[..|log| - 1]) + if log[|log| - 1].Completion? then [log[|log| - 1].file] else []
  }

  /** At no time are more than `limit` submitted files waiting for their completion, and only
      submitted files complete. */
  ghost predicate WithinWindow(log: seq<Event>, limit: nat) {
    forall k :: 0 <= k <= |log| ==> Fits(log[..k], limit)
  }

  ghost predicate Fits(log: seq<Event>, limit: nat) {
    && |Submissions(log)| <= |Completions(log)| + limit
    && forall i :: i in Completions(log) ==> i in Submissions(log)
  }

  /** The log of a run that has submitted the first `next` files and completed those of `order`. */
  ghost predicate Logged(log: seq<Event>, order: seq<nat>, next: nat, limit: nat) {
    WithinWindow(log, limit) && Completions(log) == order && Submissions(log) == UpTo(next)
  }

  lemma WindowSnoc(log: seq<Event>, e: Event, limit: nat)
    requires WithinWindow(log, limit) && Fits(log + [e], limit)
    ensures WithinWindow(log + [e], limit)
  {
    forall k | 0 <= k <= |log| + 1 ensures Fits((log + [e])[..k], limit) {
      if k <= |log| {
        assert (log + [e])[..k] == log[..k];
      } else {
        assert (log + [e])[..k] == log + [e];
      }
    }
  }

  lemma EventSnoc(log: seq<Event>, e: Event)
    ensures Submissions(log + [e]) == Submissions(log) + if e.Submission? then [e.file] else []
    ensures Completions(log + [e]) == Completions(log) + if e.Completion? then [e.file] else []
  {
    assert (log + [e])[..|log|] == log;
  }

  lemma EmptyLog(limit: nat)
    ensures Logged([], [], 0, limit)
  {
    var none: seq<Event> := [];
    assert forall k :: 0 <= k <= 0 ==> none[..k] == none;
  }

  lemma LogSubmission(log: seq<Event>, order: seq<nat>, next: nat, limit: nat)
    requires Logged(log, order, next, limit) && next < |order| + limit
    ensures Logged(log + [Submission(next)], order, next + 1, limit)
  {
    var e := Submission(next);
    EventSnoc(log, e);
    assert UpTo(next + 1) == UpTo(next) + [next];
    assert log[..|log|] == log && Fits(log[..|log|], limit);
    WindowSnoc(log, e, limit);
  }

  lemma LogCompletion(log: seq<Event>, order: seq<nat>, next: nat, limit: nat, i: nat)
    requires Logged(log, order, next, limit) && i < next
    ensures Logged(log + [Completion(i)], order + [i], next, limit)
  {
    var e := Completion(i);
    EventSnoc(log, e);
    assert UpTo(next)[i] == i;
    assert log[..|log|] == log && Fits(log[..|log|], limit);
    WindowSnoc(log, e, limit);
  }

  // ----- Which completion orders a window allows

  /** The completions so far: each was submitted by then, within a window of `window` unfinished files. */
  ghost predicate Admitted(order: seq<nat>, count: nat, window: nat) {
    Distinct(order) && forall k :: 0 <= k < |order| ==> order[k] < count && order[k] < k + window
  }

  /** A complete order in which every file completes while it is in the window. */
  ghost predicate Reachable(order: seq<nat>, count: nat, window: nat) {
    Admitted(order, count, window) && |order| == count
  }

  /** How many files are submitted once `done` have completed and the window is full again. */
  function Ahead(count: nat, window: nat, done: nat): nat {
    if done + window < count then done + window else count
  }

  /** What is in flight then. */
  ghost function Waiting(order: seq<nat>, count: nat, window: nat): set<nat> {
    Below(Ahead(count, window, |order|)) - Members(order)
  }

  lemma WaitingIsScheduled(order: seq<nat>, count: nat, window: nat)
    requires Admitted(order, count, window)
    ensures |order| <= count
    ensures Scheduled(order, Waiting(order, count, window), Ahead(count, window, |order|), count)
    ensures |Waiting(order, count, window)| == Ahead(count, window, |order|) - |order|
  {
    var next := Ahead(count, window, |order|);
    BelowSize(count);
    BelowSize(next);
    DistinctSize(order);
    SubsetSize(Members(order), Below(count));
    ScheduledLength(order, Waiting(order, count, window), next, count);
  }

  /** A full window, or all files submitted: then exactly the waiting files are in flight. */
  lemma ScheduledIsWaiting(order: seq<nat>, inFlight: set<nat>, next: nat, count: nat, window: nat)
    requires Scheduled(order, inFlight, next, count) && |inFlight| <= window
    requires |inFlight| == window || next == count
    ensures inFlight == Waiting(order, count, window)
  {
    ScheduledLength(order, inFlight, next, count);
    BelowSize(next);
    assert forall k: nat :: k in inFlight <==> k in Waiting(order, count, window);
  }

  lemma AdmitBatch(order: seq<nat>, count: nat, window: nat, batch: seq<nat>)
    requires Admitted(order, count, window) && Drawn(batch, Waiting(order, count, window))
    ensures Admitted(order + batch, count, window)
  {
    WaitingIsScheduled(order, count, window);
    ScheduledDrain(order, Waiting(order, count, window), batch, Ahead(count, window, |order|), count);
  }

  /** Every `wait` on futures in flight finds some of them completed. */
  ghost predicate AlwaysDraws(wait: (nat, set<nat>) -> seq<nat>) {
    forall step: nat, inFlight: set<nat> :: inFlight != {} ==> Drawn(wait(step, inFlight), inFlight)
  }

  lemma NextBatch(wait: (nat, set<nat>) -> seq<nat>, count: nat, window: nat, step: nat, order: seq<nat>)
    requires AlwaysDraws(wait) && window >= 1 && Admitted(order, count, window) && |order| < count
    ensures var batch := wait(step, Waiting(order, count, window));
      batch != [] && Admitted(order + batch, count, window)
  {
    WaitingIsScheduled(order, count, window);
    assert Waiting(order, count, window) != {};
    AdmitBatch(order, count, window, wait(step, Waiting(order, count, window)));
  }

  /** The completion order of a run whose submissions all succeed, as `wait` decides it. */
  ghost function OrderFrom(wait: (nat, set<nat>) -> seq<nat>, count: nat, window: nat, step: nat,
                           order: seq<nat>): seq<nat>
    requires AlwaysDraws(wait) && window >= 1 && Admitted(order, count, window)
    decreases count - |order|
  {
    if |order| >= count then order
    else
      NextBatch(wait, count, window, step, order);
      OrderFrom(wait, count, window, step + 1, order + wait(step, Waiting(order, count, window)))
  }

  lemma {:induction false} OrderIsReachable(wait: (nat, set<nat>) -> seq<nat>, count: nat, window: nat, step: nat,
                                            order: seq<nat>)
    requires AlwaysDraws(wait) && window >= 1 && Admitted(order, count, window)
    ensures Reachable(OrderFrom(wait, count, window, step, order), count, window)
    decreases count - |order|
  {
    WaitingIsScheduled(order, count, window);
    if |order| < count {
      NextBatch(wait, count, window, step, order);
      OrderIsReachable(wait, count, window, step + 1, order + wait(step, Waiting(order, count, window)));
    }
  }

  ghost function OrderOf(wait: (nat, set<nat>) -> seq<nat>, count: nat, window: nat): (order: seq<nat>)
    requires AlwaysDraws(wait) && window >= 1
    ensures Reachable(order, count, window)
  {
    OrderIsReachable(wait, count, window, 0, []);
    OrderFrom(wait, count, window, 0, [])
  }

  ghost function AnyOf(s: set<nat>): (x: nat)
    requires s != {}
    ensures x in s
  {
    var x :| x in s;
    x
  }

  /** The next file of the given order, if it is in flight, and otherwise any that is. */
  ghost function NextOf(order: seq<nat>, step: nat, inFlight: set<nat>): (batch: seq<nat>)
    ensures inFlight != {} ==> Drawn(batch, inFlight)
    ensures step < |order| && order[step] in inFlight ==> batch == [order[step]]
  {
    if step < |order| && order[step] in inFlight then [order[step]]
    else if inFlight == {} then []
    else [AnyOf(inFlight)]
  }

  /** Waits that find the files completed one by one in the given order. */
  ghost function Follow(order: seq<nat>): (wait: (nat, set<nat>) -> seq<nat>)
    ensures AlwaysDraws(wait)
  {
    (step: nat, inFlight: set<nat>) => NextOf(order, step, inFlight)
  }

  lemma {:induction false} FollowFrom(order: seq<nat>, count: nat, window: nat, k: nat)
    requires Reachable(order, count, window) && window >= 1 && k <= count
    requires Admitted(order[..k], count, window)
    ensures OrderFrom(Follow(order), count, window, k, order[..k]) == order
    decreases count - k
  {
    if k == count {
      assert order[..k] == order;
    } else {
      BelowSize(Ahead(count, window, k));
      assert order[k] in Waiting(order[..k], count, window);
      assert order[..k] + [order[k]] == order[..k + 1];
      FollowFrom(order, count, window, k + 1);
    }
  }

  /** Every reachable order is the order of some run. */
  lemma ReachableIsARun(order: seq<nat>, count: nat, window: nat)
    requires Reachable(order, count, window) && window >= 1
    ensures OrderOf(Follow(order), count, window) == order
  {
    assert order[..0] == [];
    FollowFrom(order, count, window, 0);
  }

  // ----- The same orders, read off the log

  lemma {:induction false} LogBoundsCompletions(log: seq<Event>, limit: nat)
    requires WithinWindow(log, limit) && Submissions(log) == UpTo(|Submissions(log)|)
    ensures forall k :: 0 <= k < |Completions(log)| ==> Completions(log)[k] < k + limit
  {
    if log != [] {
      var most, last := log[..|log| - 1], log[|log| - 1];
      assert forall k :: 0 <= k <= |most| ==> most[..k] == log[..k];
      assert forall k :: 0 <= k <= |most| ==> Fits(log[..k], limit);
      assert log[..|log|] == log && most[..|most|] == most;
      assert Submissions(most) == Submissions(log)[..|Submissions(most)|];
      LogBoundsCompletions(most, limit);
      if last.Completion? {
        assert last.file == Completions(log)[|Completions(log)| - 1] && Fits(log, limit);
        assert last.file in Submissions(log);
      }
    }
  }

  lemma {:induction false} SubmitAhead(log: seq<Event>, order: seq<nat>, next: nat, target: nat, limit: nat)
    returns (log': seq<Event>)
    requires Logged(log, order, next, limit) && next <= target <= |order| + limit
    ensures Logged(log', order, target, limit)
    decreases target - next
  {
    if next == target {
      log' := log;
    } else {
      LogSubmission(log, order, next, limit);
      log' := SubmitAhead(log + [Submission(next)], order, next + 1, target, limit);
    }
  }

  lemma {:induction false} LogOfOrder(order: seq<nat>, count: nat, window: nat, k: nat) returns (log: seq<Event>)
    requires Admitted(order, count, window) && k <= |order|
    ensures Logged(log, order[..k], Ahead(count, window, k), window)
  {
    if k == 0 {
      EmptyLog(window);
      assert order[..0] == [];
      log := SubmitAhead([], [], 0, Ahead(count, window, 0), window);
    } else {
      var before := LogOfOrder(order, count, window, k - 1);
      LogCompletion(before, order[..k - 1], Ahead(count, window, k - 1), window, order[k - 1]);
      assert order[..k - 1] + [order[k - 1]] == order[..k];
      log := SubmitAhead(before + [Completion(order[k - 1])], order[..k], Ahead(count, window, k - 1),
                         Ahead(count, window, k), window);
    }
  }

  /** The reachable orders are exactly the complete ones for which some log stays within the window. */
  lemma ReachableIsLogged(order: seq<nat>, count: nat, window: nat)
    requires Distinct(order) && |order| == count
    ensures Reachable(order, count, window) <==> exists log :: Logged(log, order, count, window)
  {
    if Reachable(order, count, window) {
      var log := LogOfOrder(order, count, window, count);
      assert order[..count] == order;
      assert Logged(log, order, count, window);
    }
    if log :| Logged(log, order, count, window) {
      LogBoundsCompletions(log, window);
      assert log[..|log|] == log && Fits(log, window);
      assert forall k :: 0 <= k < |order| ==> order[k] in order && order[k] in UpTo(count);
    }
  }

  // ----- A complete order is a permutation of the files

  function Without<T>(s: seq<T>, i: nat): seq<T>
    requires i < |s|
  {
    s[..i] + s[i + 1..]
  }

  lemma WithoutOne<T>(s: seq<T>, i: nat)
    requires i < |s|
    ensures multiset(s) == multiset(Without(s, i)) + multiset{s[i]}
  {
    assert s == s[..i] + [s[i]] + s[i + 1..];
  }

  /** Leaving out one occurrence on both sides. */
  lemma SameWithout<T>(a: seq<T>, b: seq<T>, n: nat) returns (i: nat)
    requires multiset(a) == multiset(b) && n < |a|
    ensures i < |b| && b[i] == a[n] && multiset(Without(a, n)) == multiset(Without(b, i))
  {
    assert a[n] in multiset(b);
    i :| 0 <= i < |b| && b[i] == a[n];
    WithoutOne(a, n);
    WithoutOne(b, i);
    assert multiset(Without(a, n)) == multiset(a) - multiset{a[n]};
    assert multiset(Without(b, i)) == multiset(b) - multiset{b[i]};
  }

  function Image<T>(s: seq<nat>, f: nat -> T): seq<T> {
    seq(|s|, k requires 0 <= k < |s| => f(s[k]))
  }

  lemma ImageWithout<T>(s: seq<nat>, f: nat -> T, i: nat)
    requires i < |s|
    ensures Image(Without(s, i), f) == Without(Image(s, f), i)
  {
  }

  /** Reordering the files reorders what belongs to them. */
  lemma {:induction false} ImageReordered<T>(a: seq<nat>, b: seq<nat>, f: nat -> T)
    requires multiset(a) == multiset(b)
    ensures multiset(Image(a, f)) == multiset(Image(b, f))
    decreases |a|
  {
    if a == [] {
      assert |multiset(b)| == 0;
    } else {
      var i := SameWithout(a, b, 0);
      ImageReordered(Without(a, 0), Without(b, i), f);
      ImageWithout(a, f, 0);
      ImageWithout(b, f, i);
      WithoutOne(Image(a, f), 0);
      WithoutOne(Image(b, f), i);
    }
  }

  lemma {:induction false} DistinctOnce(s: seq<nat>)
    requires Distinct(s)
    ensures forall k :: multiset(s)[k] == if k in s then 1 else 0
  {
    if s != [] {
      var most, last := s[..|s| - 1], s[|s| - 1];
      assert s == most + [last];
      DistinctOnce(most);
    }
  }

  lemma FullOrderIsPermutation(order: seq<nat>, n: nat)
    requires Distinct(order) && |order| == n && forall k :: k in order ==> k < n
    ensures multiset(order) == multiset(UpTo(n))
  {
    FullOrderCoversAll(order, n);
    BelowSize(n);
    DistinctOnce(order);
    DistinctOnce(UpTo(n));
    forall k: nat ensures multiset(order)[k] == multiset(UpTo(n))[k] {
      assert k in UpTo(n) <==> k in Below(n);
    }
  }

  /** And a permutation of the files is such an order. */
  lemma PermutationIsDistinct(order: seq<nat>, n: nat)
    requires multiset(order) == multiset(UpTo(n))
    ensures Distinct(order) && |order| == n && forall k :: 0 <= k < n ==> order[k] < n
  {
    BelowSize(n);
    DistinctOnce(UpTo(n));
    assert |multiset(order)| == |multiset(UpTo(n))|;
    forall a, b | 0 <= a < b < |order| ensures order[a] != order[b] {
      var rest := order[a + 1..];
      assert order == order[..a + 1] + rest && rest[b - a - 1] == order[b];
      assert multiset(order)[order[b]] == multiset(order[..a + 1])[order[b]] + multiset(rest)[order[b]];
      assert order[b] in multiset(rest) && multiset(order)[order[b]] <= 1;
      assert order[..a + 1][a] == order[a];
    }
    forall k | 0 <= k < n ensures order[k] < n {
      assert order[k] in multiset(order) && order[k] in UpTo(n);
    }
  }
}
