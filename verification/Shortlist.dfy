/** The structural shortlist: inside a comparison group a candidate is deferred when another one
    dominates it on the enabled criteria, and the audit names its deferrer. */
module Shortlist {
  import opened Sorting
  import opened Wrappers

  datatype Criterion = SourcePnl | Efficiency | CloseSupport | PointEventCount

  /** Identifiers and comparison keys are ordered texts; here they are numbers with the same order. */
  datatype Candidate = Candidate(id: int, structure: int, key: int,
                                 pnl: seq<real>, efficiency: seq<real>, support: seq<real>, events: seq<real>)

  /** One value per order for each criterion. */
  function ValuesOf(c: Candidate, name: Criterion): seq<real> {
    match name
    case SourcePnl => c.pnl
    case Efficiency => c.efficiency
    case CloseSupport => c.support
    case PointEventCount => c.events
  }

  /** All vectors have one entry per order, candidates have orders, and one key means one order count. */
  ghost predicate Comparable(c: Candidate, d: Candidate) {
    && c.pnl != [] && d.pnl != []
    && (forall name: Criterion :: |ValuesOf(c, name)| == |c.pnl| && |ValuesOf(d, name)| == |d.pnl|)
    && (c.key == d.key ==> |c.pnl| == |d.pnl|)
  }

  ghost predicate AllComparable(candidates: seq<Candidate>) {
    forall i, j :: 0 <= i < |candidates| && 0 <= j < |candidates| ==> Comparable(candidates[i], candidates[j])
  }

  // ----- Dominance

  predicate NotBelow(left: seq<real>, right: seq<real>)
    requires |left| == |right|
  {
    forall i :: 0 <= i < |left| ==> left[i] >= right[i]
  }

  predicate SomewhereAbove(left: seq<real>, right: seq<real>)
    requires |left| == |right|
  {
    exists i :: 0 <= i < |left| && left[i] > right[i]
  }

  function Lowest(s: seq<real>): real
    requires s != []
  {
    if |s| == 1 then s[0]
    else
      var rest := Lowest(s[..|s| - 1]);
      if s[|s| - 1] < rest then s[|s| - 1] else rest
  }

  /** `_dominates`, with its separate test of the lowest close support. */
  predicate Dominates(left: Candidate, right: Candidate, criteria: seq<Criterion>)
    requires Comparable(left, right)
  {
    && left.key == right.key && criteria != []
    && (forall name :: name in criteria ==> NotBelow(ValuesOf(left, name), ValuesOf(right, name)))
    && (CloseSupport in criteria ==> Lowest(left.support) >= Lowest(right.support))
    && (exists name :: name in criteria && SomewhereAbove(ValuesOf(left, name), ValuesOf(right, name)))
  }

  lemma {:induction false} LowestIsMinimum(s: seq<real>)
    requires s != []
    ensures Lowest(s) in s && forall k :: 0 <= k < |s| ==> Lowest(s) <= s[k]
  {
    if |s| > 1 {
      LowestIsMinimum(s[..|s| - 1]);
    }
  }

  /** The separate close-support test never changes a verdict: pointwise dominance implies it. */
  lemma MinimumTestIsRedundant(left: Candidate, right: Candidate, criteria: seq<Criterion>)
    requires Comparable(left, right)
    ensures Dominates(left, right, criteria) <==>
      && left.key == right.key && criteria != []
      && (forall name :: name in criteria ==> NotBelow(ValuesOf(left, name), ValuesOf(right, name)))
      && (exists name :: name in criteria && SomewhereAbove(ValuesOf(left, name), ValuesOf(right, name)))
  {
    if left.key == right.key && CloseSupport in criteria
      && NotBelow(ValuesOf(left, CloseSupport), ValuesOf(right, CloseSupport)) {
      assert |left.support| == |ValuesOf(left, CloseSupport)| == |ValuesOf(right, CloseSupport)| == |right.support|;
      LowestIsMinimum(left.support);
      LowestIsMinimum(right.support);
      var k :| 0 <= k < |left.support| && left.support[k] == Lowest(left.support);
      assert left.support[k] >= right.support[k];
    }
  }

  lemma NothingDominatesItself(c: Candidate, criteria: seq<Criterion>)
    requires Comparable(c, c)
    ensures !Dominates(c, c, criteria)
  {
  }

  /** Dominance over three candidates: transitive, so with the lemma above a strict partial order. */
  lemma DominanceIsTransitive(a: Candidate, b: Candidate, c: Candidate, criteria: seq<Criterion>)
    requires Comparable(a, b) && Comparable(b, c) && Comparable(a, c)
    requires Dominates(a, b, criteria) && Dominates(b, c, criteria)
    ensures Dominates(a, c, criteria)
  {
    var name :| name in criteria && SomewhereAbove(ValuesOf(a, name), ValuesOf(b, name));
    var i :| 0 <= i < |ValuesOf(a, name)| && ValuesOf(a, name)[i] > ValuesOf(b, name)[i];
    assert NotBelow(ValuesOf(b, name), ValuesOf(c, name));
    assert ValuesOf(a, name)[i] > ValuesOf(c, name)[i];
    forall name | name in criteria ensures NotBelow(ValuesOf(a, name), ValuesOf(c, name)) {
      assert NotBelow(ValuesOf(a, name), ValuesOf(b, name)) && NotBelow(ValuesOf(b, name), ValuesOf(c, name));
    }
  }

  /** Whoever dominates on all enabled criteria together already does so on one of them alone. */
  lemma CombinedShowsAlone(left: Candidate, right: Candidate, criteria: seq<Criterion>) returns (name: Criterion)
    requires Comparable(left, right) && Dominates(left, right, criteria)
    ensures name in criteria && Dominates(left, right, [name])
  {
    name :| name in criteria && SomewhereAbove(ValuesOf(left, name), ValuesOf(right, name));
    MinimumTestIsRedundant(left, right, [name]);
  }

  // ----- Who defers whom

  predicate Beats(candidates: seq<Candidate>, d: Candidate, c: Candidate, criteria: seq<Criterion>)
    requires AllComparable(candidates) && c in candidates
  {
    d in candidates && Dominates(d, c, criteria)
  }

  ghost predicate IsReady(candidates: seq<Candidate>, c: Candidate, criteria: seq<Criterion>)
    requires AllComparable(candidates) && c in candidates
  {
    forall d :: d in candidates ==> !Beats(candidates, d, c, criteria)
  }

  function Precedence(): Candidate -> (int, int) { (c: Candidate) => (c.structure, c.id) }

  /** The dominator with the least structure and candidate identifier. */
  ghost predicate IsDeferrer(candidates: seq<Candidate>, d: Candidate, c: Candidate, criteria: seq<Criterion>)
    requires AllComparable(candidates) && c in candidates
  {
    && Beats(candidates, d, c, criteria)
    && (forall e :: e in candidates && Beats(candidates, e, c, criteria) ==> AtMost(Precedence()(d), Precedence()(e)))
  }

  /** Each member is deferred by the next. */
  ghost predicate IsChain(candidates: seq<Candidate>, chain: seq<Candidate>, criteria: seq<Criterion>)
    requires AllComparable(candidates)
  {
    && (forall k :: 0 <= k < |chain| ==> chain[k] in candidates)
    && (forall k :: 0 < k < |chain| ==> IsDeferrer(candidates, chain[k], chain[k - 1], criteria))
  }

  /** Along a deferral chain every later member dominates every earlier one; so none comes back. */
  lemma {:induction false} ChainsDominate(candidates: seq<Candidate>, chain: seq<Candidate>, criteria: seq<Criterion>,
                                          i: nat, j: nat)
    requires AllComparable(candidates) && IsChain(candidates, chain, criteria) && i < j < |chain|
    ensures Beats(candidates, chain[j], chain[i], criteria) && chain[i] != chain[j]
    decreases j - i
  {
    hide Dominates, Comparable;
    assert chain[j - 1] in candidates && IsDeferrer(candidates, chain[j], chain[j - 1], criteria);
    if i < j - 1 {
      ChainsDominate(candidates, chain, criteria, i, j - 1);
      BeatsTransitive(candidates, chain[j], chain[j - 1], chain[i], criteria);
    }
    BeatsIsStrict(candidates, chain[i], criteria);
  }

  lemma BeatsTransitive(candidates: seq<Candidate>, a: Candidate, b: Candidate, c: Candidate, criteria: seq<Criterion>)
    requires AllComparable(candidates) && b in candidates && c in candidates
    requires Beats(candidates, a, b, criteria) && Beats(candidates, b, c, criteria)
    ensures Beats(candidates, a, c, criteria)
  {
    DominanceIsTransitive(a, b, c, criteria);
  }

  lemma BeatsIsStrict(candidates: seq<Candidate>, c: Candidate, criteria: seq<Criterion>)
    requires AllComparable(candidates) && c in candidates
    ensures !Beats(candidates, c, c, criteria)
  {
    NothingDominatesItself(c, criteria);
  }

  ghost function Winners(candidates: seq<Candidate>, c: Candidate, criteria: seq<Criterion>): set<Candidate>
    requires AllComparable(candidates) && c in candidates
  {
    set d | d in candidates && Beats(candidates, d, c, criteria)
  }

  /** Following the audit's links from any candidate ends, at a READY candidate that dominates it. */
  lemma {:induction false} ChainEndsReady(candidates: seq<Candidate>, c: Candidate, criteria: seq<Criterion>)
    returns (chain: seq<Candidate>)
    requires AllComparable(candidates) && c in candidates
    ensures chain != [] && chain[0] == c && IsChain(candidates, chain, criteria)
    ensures IsReady(candidates, chain[|chain| - 1], criteria)
    ensures |chain| > 1 ==> Beats(candidates, chain[|chain| - 1], c, criteria)
    ensures |chain| == 1 <==> IsReady(candidates, c, criteria)
    decreases Winners(candidates, c, criteria)
  {
    hide Comparable, Dominates, AllComparable;
    if IsReady(candidates, c, criteria) {
      chain := [c];
    } else {
      var d := SomeDeferrer(candidates, c, criteria);
      forall e | e in Winners(candidates, d, criteria) ensures e in Winners(candidates, c, criteria) {
        BeatsTransitive(candidates, e, d, c, criteria);
      }
      BeatsIsStrict(candidates, d, criteria);
      assert d in Winners(candidates, c, criteria);
      var rest := ChainEndsReady(candidates, d, criteria);
      chain := [c] + rest;
      if |rest| > 1 {
        BeatsTransitive(candidates, rest[|rest| - 1], d, c, criteria);
      }
    }
  }

  // ----- The least dominator

  function Dominators(candidates: seq<Candidate>, c: Candidate, criteria: seq<Criterion>,
                      n: nat): (dominators: seq<Candidate>)
    requires AllComparable(candidates) && c in candidates && n <= |candidates|
    ensures forall d :: d in dominators <==> d in candidates[..n] && Beats(candidates, d, c, criteria)
  {
    if n == 0 then []
    else if Beats(candidates, candidates[n - 1], c, criteria)
    then Dominators(candidates, c, criteria, n - 1) + [candidates[n - 1]]
    else Dominators(candidates, c, criteria, n - 1)
  }

  /** `min(..., key=(structure, id))`. */
  function Earliest(dominators: seq<Candidate>): (d: Candidate)
    requires dominators != []
    ensures d in dominators && forall e :: e in dominators ==> AtMost(Precedence()(d), Precedence()(e))
  {
    var last := dominators[|dominators| - 1];
    if |dominators| == 1 then last
    else
      var rest := Earliest(dominators[..|dominators| - 1]);
      if AtMost(Precedence()(rest), Precedence()(last)) then rest else last
  }

  lemma SomeDeferrer(candidates: seq<Candidate>, c: Candidate, criteria: seq<Criterion>) returns (d: Candidate)
    requires AllComparable(candidates) && c in candidates && !IsReady(candidates, c, criteria)
    ensures IsDeferrer(candidates, d, c, criteria)
  {
    assert candidates[..|candidates|] == candidates;
    d := Earliest(Dominators(candidates, c, criteria, |candidates|));
  }

  function IdOf(): Candidate -> int { (c: Candidate) => c.id }

  /** With unique identifiers there is one deferrer at most. */
  lemma DeferrerIsUnique(candidates: seq<Candidate>, d: Candidate, e: Candidate, c: Candidate, criteria: seq<Criterion>)
    requires AllComparable(candidates) && c in candidates && DistinctBy(candidates, IdOf())
    requires IsDeferrer(candidates, d, c, criteria) && IsDeferrer(candidates, e, c, criteria)
    ensures d == e
  {
    assert AtMost(Precedence()(d), Precedence()(e)) && AtMost(Precedence()(e), Precedence()(d));
    SameCandidate(candidates, d, e);
  }

  // ----- Audit rows

  datatype AuditRow = AuditRow(deferrer: Candidate, deferred: Candidate, criteria: seq<Criterion>)

  function RowKey(): AuditRow -> (int, int) { (r: AuditRow) => (r.deferred.key, r.deferred.id) }

  function DeferredId(): AuditRow -> int { (r: AuditRow) => r.deferred.id }

  ghost predicate IsRow(candidates: seq<Candidate>, r: AuditRow, criteria: seq<Criterion>)
    requires AllComparable(candidates)
  {
    r.criteria == criteria && r.deferred in candidates && IsDeferrer(candidates, r.deferrer, r.deferred, criteria)
  }

  /** One row for each deferred candidate, and nothing else. */
  ghost predicate AreRows(rows: seq<AuditRow>, candidates: seq<Candidate>, part: seq<Candidate>,
                          criteria: seq<Criterion>)
    requires AllComparable(candidates)
  {
    && (forall r :: r in rows ==> IsRow(candidates, r, criteria) && r.deferred in part)
    && (forall c :: c in part && c in candidates && !IsReady(candidates, c, criteria) ==>
      exists r :: r in rows && r.deferred == c)
    && DistinctBy(rows, DeferredId())
  }

  lemma RowsGrow(rows: seq<AuditRow>, group: seq<Candidate>, criteria: seq<Criterion>, k: nat, row: AuditRow)
    requires AllComparable(group) && DistinctBy(group, IdOf()) && k < |group|
    requires AreRows(rows, group, group[..k], criteria) && IsRow(group, row, criteria) && row.deferred == group[k]
    ensures AreRows(rows + [row], group, group[..k + 1], criteria)
  {
    var more := rows + [row];
    hide Comparable, AllComparable, Beats, IsDeferrer, IsReady;
    assert group[..k + 1] == group[..k] + [group[k]];
    forall i | 0 <= i < |rows| ensures rows[i].deferred.id != row.deferred.id {
      assert rows[i] in rows;
      var j :| 0 <= j < k && group[j] == rows[i].deferred;
      assert IdOf()(group[j]) != IdOf()(group[k]);
    }
    assert row in more && forall r :: r in rows ==> r in more;
  }

  lemma RowsStay(rows: seq<AuditRow>, group: seq<Candidate>, criteria: seq<Criterion>, k: nat)
    requires AllComparable(group) && k < |group|
    requires AreRows(rows, group, group[..k], criteria) && IsReady(group, group[k], criteria)
    ensures AreRows(rows, group, group[..k + 1], criteria)
  {
    assert group[..k + 1] == group[..k] + [group[k]];
  }

  /** One group: every member with a dominator gets a row naming the least of them. */
  method AuditRows(group: seq<Candidate>, criteria: seq<Criterion>) returns (rows: seq<AuditRow>)
    requires AllComparable(group) && DistinctBy(group, IdOf())
    ensures AreRows(rows, group, group, criteria)
  {
    rows := [];
    assert group[..|group|] == group && AreRows([], group, group[..0], criteria);
    hide *;
    for k := 0 to |group|
      invariant AreRows(rows, group, group[..k], criteria)
    {
      var deferred := group[k];
      var dominators := Dominators(group, deferred, criteria, |group|);
      if dominators != [] {
        var row := AuditRow(Earliest(dominators), deferred, criteria);
        EarliestDefers(group, deferred, criteria);
        RowsGrow(rows, group, criteria, k, row);
        rows := rows + [row];
      } else {
        EarliestDefers(group, deferred, criteria);
        RowsStay(rows, group, criteria, k);
      }
    }
  }

  lemma EarliestDefers(group: seq<Candidate>, c: Candidate, criteria: seq<Criterion>)
    requires AllComparable(group) && c in group
    ensures var dominators := Dominators(group, c, criteria, |group|);
      if dominators == [] then IsReady(group, c, criteria)
      else forall row: AuditRow :: row == AuditRow(Earliest(dominators), c, criteria) ==> IsRow(group, row, criteria)
  {
    assert group[..|group|] == group;
    hide Dominates, Comparable, AllComparable;
  }

  /** `_standalone_rows`. */
  method StandaloneRows(group: seq<Candidate>, criterion: Criterion) returns (rows: seq<AuditRow>)
    requires AllComparable(group) && DistinctBy(group, IdOf())
    ensures AreRows(rows, group, group, [criterion]) && SortedBy(rows, RowKey())
  {
    var found := AuditRows(group, [criterion]);
    rows := Sort(found, RowKey());
    SortIsSorted(found, RowKey());
    SortDistinct(found, RowKey(), DeferredId());
  }

  // ----- Groups

  function InGroup(key: int): Candidate -> bool { (c: Candidate) => c.key == key }

  function Group(candidates: seq<Candidate>, key: int): seq<Candidate> {
    Where(candidates, InGroup(key))
  }

  /** Dominance never leaves a group, so the group alone decides its rows. */
  lemma GroupDecides(candidates: seq<Candidate>, key: int, criteria: seq<Criterion>)
    requires AllComparable(candidates) && DistinctBy(candidates, IdOf())
    ensures var group := Group(candidates, key); AllComparable(group) && DistinctBy(group, IdOf())
    ensures var group := Group(candidates, key); forall c :: c in group <==> c in candidates && c.key == key
    ensures var group := Group(candidates, key);
      forall c :: c in group ==> (IsReady(group, c, criteria) <==> IsReady(candidates, c, criteria))
    ensures var group := Group(candidates, key);
      forall d, c :: c in group ==> (IsDeferrer(group, d, c, criteria) <==> IsDeferrer(candidates, d, c, criteria))
  {
    var group := Group(candidates, key);
    WhereDistinct(candidates, InGroup(key), IdOf());
    forall c | c in candidates && c.key == key ensures c in group {
      WhereHas(candidates, InGroup(key), c);
    }
    forall i, j | 0 <= i < |group| && 0 <= j < |group| ensures Comparable(group[i], group[j]) {
      assert group[i] in candidates && group[j] in candidates;
    }
    hide Comparable, AllComparable;
    forall d, c | c in group ensures Beats(group, d, c, criteria) <==> Beats(candidates, d, c, criteria) {
      assert Beats(candidates, d, c, criteria) ==> d.key == c.key;
    }
    hide Dominates, Beats;
  }

  lemma GroupIsSound(candidates: seq<Candidate>, key: int)
    requires AllComparable(candidates) && DistinctBy(candidates, IdOf())
    ensures AllComparable(Group(candidates, key)) && DistinctBy(Group(candidates, key), IdOf())
  {
    GroupDecides(candidates, key, []);
  }

  lemma GroupRows(rows: seq<AuditRow>, candidates: seq<Candidate>, key: int, criteria: seq<Criterion>)
    requires AllComparable(candidates) && DistinctBy(candidates, IdOf())
    requires var group := Group(candidates, key); AllComparable(group) && AreRows(rows, group, group, criteria)
    ensures AreRows(rows, candidates, Group(candidates, key), criteria)
  {
    GroupDecides(candidates, key, criteria);
    hide Comparable, AllComparable, Beats, IsDeferrer, IsReady;
  }

  /** The groups of the first `n` keys, one after the other. */
  function Regrouped(candidates: seq<Candidate>, keys: seq<int>, n: nat): seq<Candidate>
    requires n <= |keys|
  {
    if n == 0 then []
    else
      Regrouped(candidates, keys, n - 1) + Group(candidates, keys[n - 1])
  }

  lemma {:induction false} RegroupedHasAll(candidates: seq<Candidate>, keys: seq<int>, n: nat, c: Candidate, k: nat)
    requires k < n <= |keys| && c in candidates && c.key == keys[k]
    ensures c in Regrouped(candidates, keys, n)
  {
    if k == n - 1 {
      WhereHas(candidates, InGroup(c.key), c);
    } else {
      RegroupedHasAll(candidates, keys, n - 1, c, k);
    }
  }

  lemma {:induction false} RegroupedHasKey(candidates: seq<Candidate>, keys: seq<int>, n: nat, c: Candidate)
    returns (k: nat)
    requires n <= |keys| && c in Regrouped(candidates, keys, n)
    ensures k < n && c.key == keys[k] && c in candidates
  {
    if c in Group(candidates, keys[n - 1]) {
      k := n - 1;
    } else {
      k := RegroupedHasKey(candidates, keys, n - 1, c);
    }
  }

  /** Rows of one more group appended: keys ascend, so sortedness and distinctness survive. */
  lemma GroupsAppend(rows: seq<AuditRow>, more: seq<AuditRow>, candidates: seq<Candidate>, keys: seq<int>, n: nat,
                     criteria: seq<Criterion>)
    requires AllComparable(candidates) && DistinctBy(candidates, IdOf()) && Increasing(keys) && n < |keys|
    requires AreRows(rows, candidates, Regrouped(candidates, keys, n), criteria)
    requires AreRows(more, candidates, Group(candidates, keys[n]), criteria)
    ensures AreRows(rows + more, candidates, Regrouped(candidates, keys, n + 1), criteria)
    ensures SortedBy(rows, RowKey()) && SortedBy(more, RowKey()) ==> SortedBy(rows + more, RowKey())
  {
    var all := rows + more;
    forall i, j | 0 <= i < |rows| && 0 <= j < |more|
      ensures rows[i].deferred.key < more[j].deferred.key && rows[i].deferred.id != more[j].deferred.id
    {
      assert rows[i] in rows && more[j] in more;
      RowsAreApart(candidates, keys, n, criteria, rows[i], more[j]);
    }
    RowsConcat(rows, more);
    hide Comparable, AllComparable, Beats, IsDeferrer, IsReady, IsRow, Group, Sorting.DistinctBy;
    assert forall r :: r in all <==> r in rows || r in more;
  }

  lemma RowsAreApart(candidates: seq<Candidate>, keys: seq<int>, n: nat, criteria: seq<Criterion>, r: AuditRow,
                     q: AuditRow)
    requires AllComparable(candidates) && DistinctBy(candidates, IdOf()) && Increasing(keys) && n < |keys|
    requires IsRow(candidates, r, criteria) && r.deferred in Regrouped(candidates, keys, n)
    requires IsRow(candidates, q, criteria) && q.deferred in Group(candidates, keys[n])
    ensures r.deferred.key < q.deferred.key && r.deferred.id != q.deferred.id
  {
    var k := RegroupedHasKey(candidates, keys, n, r.deferred);
    assert InGroup(keys[n])(q.deferred);
    if r.deferred.id == q.deferred.id {
      SameCandidate(candidates, r.deferred, q.deferred);
    }
  }

  lemma RowsConcat(rows: seq<AuditRow>, more: seq<AuditRow>)
    requires DistinctBy(rows, DeferredId()) && DistinctBy(more, DeferredId())
    requires forall i, j :: 0 <= i < |rows| && 0 <= j < |more| ==>
      rows[i].deferred.key < more[j].deferred.key && rows[i].deferred.id != more[j].deferred.id
    ensures DistinctBy(rows + more, DeferredId())
    ensures SortedBy(rows, RowKey()) && SortedBy(more, RowKey()) ==> SortedBy(rows + more, RowKey())
  {
    var all := rows + more;
    forall i, j | 0 <= i < j < |all| ensures DeferredId()(all[i]) != DeferredId()(all[j]) {
      if j < |rows| {
        assert DeferredId()(rows[i]) != DeferredId()(rows[j]);
      } else if i >= |rows| {
        assert DeferredId()(more[i - |rows|]) != DeferredId()(more[j - |rows|]);
      }
    }
    if SortedBy(rows, RowKey()) && SortedBy(more, RowKey()) {
      forall i, j | 0 <= i <= j < |all| ensures AtMost(RowKey()(all[i]), RowKey()(all[j])) {
        if j < |rows| {
          assert AtMost(RowKey()(rows[i]), RowKey()(rows[j]));
        } else if i >= |rows| {
          assert AtMost(RowKey()(more[i - |rows|]), RowKey()(more[j - |rows|]));
        }
      }
    }
  }

  // ----- The filter

  datatype Row = Row(candidate: Candidate, groupSize: nat, deferredBy: Option<(int, int)>)

  datatype FilterResult = FilterResult(rows: seq<Row>, standalone: map<Criterion, seq<AuditRow>>,
      combined: seq<AuditRow>,
                                       inputCount: int, readyCount: int, deferredCount: int, groupCount: int)

  function CandidateKey(): Candidate -> (int, int) { (c: Candidate) => (c.key, c.id) }

  function KeySet(candidates: seq<Candidate>): set<int> {
    set k | 0 <= k < |candidates| :: candidates[k].key
  }

  ghost predicate Cover(keys: seq<int>, candidates: seq<Candidate>) {
    forall c :: c in candidates ==> c.key in keys
  }

  /** The rows of one group, sorted when they are a criterion's standalone rows. */
  method RowsOfGroup(candidates: seq<Candidate>, key: int, criteria: seq<Criterion>, standalone: bool)
    returns (rows: seq<AuditRow>)
    requires AllComparable(candidates) && DistinctBy(candidates, IdOf()) && (standalone ==> |criteria| == 1)
    ensures AreRows(rows, candidates, Group(candidates, key), criteria)
    ensures standalone ==> SortedBy(rows, RowKey())
  {
    assert standalone ==> criteria == [criteria[0]];
    hide *;
    var group := Group(candidates, key);
    GroupIsSound(candidates, key);
    if standalone {
      rows := StandaloneRows(group, criteria[0]);
    } else {
      rows := AuditRows(group, criteria);
    }
    GroupRows(rows, candidates, key, criteria);
  }

  /** The rows of all groups, in ascending key order. */
  method RowsByGroup(candidates: seq<Candidate>, keys: seq<int>, criteria: seq<Criterion>, standalone: bool)
    returns (rows: seq<AuditRow>)
    requires AllComparable(candidates) && DistinctBy(candidates, IdOf()) && Increasing(keys)
    requires standalone ==> |criteria| == 1
    requires Cover(keys, candidates)
    ensures AreRows(rows, candidates, candidates, criteria)
    ensures standalone ==> SortedBy(rows, RowKey())
  {
    rows := [];
    hide *;
    NoGroupsNoRows(rows, candidates, keys, criteria);
    NothingIsSorted(rows);
    for n := 0 to |keys|
      invariant AreRows(rows, candidates, Regrouped(candidates, keys, n), criteria)
      invariant standalone ==> SortedBy(rows, RowKey())
    {
      var more := RowsOfGroup(candidates, keys[n], criteria, standalone);
      GroupsAppend(rows, more, candidates, keys, n, criteria);
      rows := rows + more;
    }
    EveryGroupIsAll(rows, candidates, keys, criteria);
  }

  lemma NoGroupsNoRows(rows: seq<AuditRow>, candidates: seq<Candidate>, keys: seq<int>, criteria: seq<Criterion>)
    requires AllComparable(candidates) && rows == []
    ensures AreRows(rows, candidates, Regrouped(candidates, keys, 0), criteria)
  {
  }

  lemma NothingIsSorted(rows: seq<AuditRow>)
    requires rows == []
    ensures SortedBy(rows, RowKey())
  {
  }

  lemma EveryGroupIsAll(rows: seq<AuditRow>, candidates: seq<Candidate>, keys: seq<int>, criteria: seq<Criterion>)
    requires AllComparable(candidates) && Cover(keys, candidates)
    requires AreRows(rows, candidates, Regrouped(candidates, keys, |keys|), criteria)
    ensures AreRows(rows, candidates, candidates, criteria)
  {
    forall c | c in candidates ensures c in Regrouped(candidates, keys, |keys|) {
      var k :| 0 <= k < |keys| && keys[k] == c.key;
      RegroupedHasAll(candidates, keys, |keys|, c, k);
    }
    hide Comparable, AllComparable, Beats, IsDeferrer, IsReady, Regrouped;
  }

  /** What the row of a candidate says: its group's size and who defers it, if anyone does. */
  ghost predicate RowIsRight(row: Row, c: Candidate, candidates: seq<Candidate>, criteria: seq<Criterion>)
    requires AllComparable(candidates) && c in candidates
  {
    && row.candidate == c && row.groupSize == |Group(candidates, c.key)|
    && (row.deferredBy == None <==> IsReady(candidates, c, criteria))
    && (row.deferredBy.Some? ==>
      exists d :: IsDeferrer(candidates, d, c, criteria) && row.deferredBy == Some((d.structure, d.id)))
  }

  /** Row by row, in the listed order. */
  ghost predicate RowsAreRight(rows: seq<Row>, listed: seq<Candidate>, candidates: seq<Candidate>,
                               criteria: seq<Criterion>)
    requires AllComparable(candidates)
  {
    && |rows| <= |listed|
    && (forall k :: 0 <= k < |rows| ==> listed[k] in candidates && RowIsRight(rows[k], listed[k], candidates, criteria))
  }

  function ReadyRow(): Row -> bool { (row: Row) => row.deferredBy == None }

  function DeferredRow(): Row -> bool { (row: Row) => row.deferredBy != None }

  /** `filter_analysis_candidates`, once the candidates are loaded. */
  method Filter(candidates: seq<Candidate>, enabled: seq<Criterion>) returns (result: FilterResult)
    requires AllComparable(candidates) && DistinctBy(candidates, IdOf())
    ensures result.standalone.Keys == set name | name in enabled
    ensures forall name :: name in enabled ==>
      AreRows(result.standalone[name], candidates, candidates, [name]) && SortedBy(result.standalone[name], RowKey())
    ensures AreRows(result.combined, candidates, candidates, enabled) && SortedBy(result.combined, RowKey())
    ensures |result.rows| == |candidates|
    ensures RowsAreRight(result.rows, Sort(candidates, CandidateKey()), candidates, enabled)
    ensures result.deferredCount == |result.combined| == |Where(result.rows, DeferredRow())|
    ensures result.readyCount == |Where(result.rows, ReadyRow())| && result.inputCount == |candidates|
    ensures result.readyCount + result.deferredCount == result.inputCount
    ensures result.groupCount == |KeySet(candidates)|
    ensures enabled == [] ==> result.readyCount == |candidates|
  {
    var keys := SortedSet(KeySet(candidates));
    assert Cover(keys, candidates);
    hide *;
    var standalone: map<Criterion, seq<AuditRow>> := map[];
    for k := 0 to |enabled|
      invariant standalone.Keys == set name | name in enabled[..k]
      invariant forall name :: name in standalone ==>
        AreRows(standalone[name], candidates, candidates, [name]) && SortedBy(standalone[name], RowKey())
    {
      var rows := RowsByGroup(candidates, keys, [enabled[k]], true);
      standalone := standalone[enabled[k] := rows];
      assert enabled[..k + 1] == enabled[..k] + [enabled[k]];
    }
    assert enabled[..|enabled|] == enabled;
    var combinedRows := RowsByGroup(candidates, keys, enabled, false);
    var combined := SortRows(combinedRows, candidates, enabled);
    var rows := ResultRows(candidates, combined, enabled);
    CountsAgree(candidates, combined, rows, enabled);
    if enabled == [] {
      NoCriteriaNoRows(candidates, combined);
    }
    KeysCount(keys, KeySet(candidates));
    result := FilterResult(rows, standalone, combined, |candidates|, |candidates| - |combined|, |combined|, |keys|);
  }

  method SortRows(rows: seq<AuditRow>, candidates: seq<Candidate>, criteria: seq<Criterion>)
    returns (ordered: seq<AuditRow>)
    requires AllComparable(candidates) && AreRows(rows, candidates, candidates, criteria)
    ensures AreRows(ordered, candidates, candidates, criteria) && SortedBy(ordered, RowKey())
  {
    ordered := Sort(rows, RowKey());
    SortIsSorted(rows, RowKey());
    SortDistinct(rows, RowKey(), DeferredId());
    RowsReordered(rows, ordered, candidates, criteria);
  }

  lemma RowsReordered(rows: seq<AuditRow>, ordered: seq<AuditRow>, candidates: seq<Candidate>, criteria: seq<Criterion>)
    requires AllComparable(candidates) && AreRows(rows, candidates, candidates, criteria)
    requires (forall r :: r in ordered <==> r in rows) && DistinctBy(ordered, DeferredId())
    ensures AreRows(ordered, candidates, candidates, criteria)
  {
    hide AllComparable, Comparable, Beats, IsDeferrer, IsReady, IsRow, Sorting.DistinctBy;
  }

  lemma KeysCount(keys: seq<int>, members: set<int>)
    requires Increasing(keys) && forall x :: x in keys <==> x in members
    ensures |keys| == |members|
  {
    IdsCount(keys, x => x);
    assert Ids(keys, x => x) == members;
  }

  ghost predicate Indexes(deferredBy: map<int, AuditRow>, combined: seq<AuditRow>) {
    && (forall id :: id in deferredBy ==> deferredBy[id] in combined && deferredBy[id].deferred.id == id)
    && (forall j :: 0 <= j < |combined| ==> combined[j].deferred.id in deferredBy)
  }

  /** The audit rows as a dictionary. */
  method RowsById(combined: seq<AuditRow>) returns (deferredBy: map<int, AuditRow>)
    ensures Indexes(deferredBy, combined)
  {
    deferredBy := map[];
    for k := 0 to |combined|
      invariant forall j :: 0 <= j < k ==> combined[j].deferred.id in deferredBy
      invariant forall id :: id in deferredBy ==> deferredBy[id] in combined && deferredBy[id].deferred.id == id
    {
      deferredBy := deferredBy[combined[k].deferred.id := combined[k]];
    }
  }

  /** The shortlist row of one candidate, its audit looked up by identifier. */
  function RowOf(c: Candidate, candidates: seq<Candidate>, deferredBy: map<int, AuditRow>): Row {
    Row(c, |Group(candidates, c.key)|,
        if c.id in deferredBy then Some((deferredBy[c.id].deferrer.structure, deferredBy[c.id].deferrer.id)) else None)
  }

  /** Rows by key and identifier. */
  method ResultRows(candidates: seq<Candidate>, combined: seq<AuditRow>, enabled: seq<Criterion>)
    returns (rows: seq<Row>)
    requires AllComparable(candidates) && DistinctBy(candidates, IdOf())
    requires AreRows(combined, candidates, candidates, enabled)
    ensures |rows| == |candidates| && RowsAreRight(rows, Sort(candidates, CandidateKey()), candidates, enabled)
  {
    var deferredBy := RowsById(combined);
    var listed := Sort(candidates, CandidateKey());
    rows := [];
    assert RowsAreRight(rows, listed, candidates, enabled);
    hide *;
    for k := 0 to |listed|
      invariant |rows| == k && RowsAreRight(rows, listed, candidates, enabled)
    {
      var c := listed[k];
      SortKeeps(candidates, k);
      RightRow(candidates, combined, enabled, c, deferredBy);
      RowsAppend(rows, RowOf(c, candidates, deferredBy), listed, candidates, enabled);
      rows := rows + [RowOf(c, candidates, deferredBy)];
    }
  }

  /** The audit row found by identifier is the candidate's own; finding none means it is READY. */
  lemma RightRow(candidates: seq<Candidate>, combined: seq<AuditRow>, enabled: seq<Criterion>, c: Candidate,
                 deferredBy: map<int, AuditRow>)
    requires AllComparable(candidates) && DistinctBy(candidates, IdOf())
    requires AreRows(combined, candidates, candidates, enabled)
    requires c in candidates && Indexes(deferredBy, combined)
    ensures RowIsRight(RowOf(c, candidates, deferredBy), c, candidates, enabled)
  {
    if c.id in deferredBy {
      RowFound(candidates, combined, enabled, c, deferredBy);
    } else {
      RowMissing(candidates, combined, enabled, c, deferredBy);
    }
  }

  lemma SortKeeps(candidates: seq<Candidate>, k: nat)
    requires k < |candidates|
    ensures Sort(candidates, CandidateKey())[k] in candidates
  {
    SortIsSorted(candidates, CandidateKey());
    assert Sort(candidates, CandidateKey())[k] in Sort(candidates, CandidateKey());
  }

  lemma RowsAppend(rows: seq<Row>, row: Row, listed: seq<Candidate>, candidates: seq<Candidate>,
                   criteria: seq<Criterion>)
    requires AllComparable(candidates) && |rows| < |listed| && RowsAreRight(rows, listed, candidates, criteria)
    requires listed[|rows|] in candidates && RowIsRight(row, listed[|rows|], candidates, criteria)
    ensures RowsAreRight(rows + [row], listed, candidates, criteria)
  {
    hide AllComparable, Comparable, RowIsRight;
  }

  lemma RowFound(candidates: seq<Candidate>, combined: seq<AuditRow>, enabled: seq<Criterion>, c: Candidate,
                 deferredBy: map<int, AuditRow>)
    requires AllComparable(candidates) && DistinctBy(candidates, IdOf())
    requires AreRows(combined, candidates, candidates, enabled)
    requires c in candidates && Indexes(deferredBy, combined) && c.id in deferredBy
    ensures RowIsRight(RowOf(c, candidates, deferredBy), c, candidates, enabled)
  {
    hide Comparable, AllComparable, Dominates, Group, Sorting.DistinctBy;
    var r := deferredBy[c.id];
    assert r in combined && IsRow(candidates, r, enabled);
    hide AreRows, Indexes;
    SameCandidate(candidates, r.deferred, c);
    assert IsDeferrer(candidates, r.deferrer, c, enabled) && Beats(candidates, r.deferrer, c, enabled);
    assert !IsReady(candidates, c, enabled);
    var row := RowOf(c, candidates, deferredBy);
    assert row.candidate == c && row.groupSize == |Group(candidates, c.key)|;
    assert row.deferredBy == Some((r.deferrer.structure, r.deferrer.id));
  }

  lemma RowMissing(candidates: seq<Candidate>, combined: seq<AuditRow>, enabled: seq<Criterion>, c: Candidate,
                   deferredBy: map<int, AuditRow>)
    requires AllComparable(candidates) && AreRows(combined, candidates, candidates, enabled)
    requires c in candidates && Indexes(deferredBy, combined) && c.id !in deferredBy
    ensures RowIsRight(RowOf(c, candidates, deferredBy), c, candidates, enabled)
  {
    hide Comparable, AllComparable, Beats, Group, IsDeferrer, IsReady, Sorting.DistinctBy;
    forall r | r in combined ensures r.deferred != c {
      var j :| 0 <= j < |combined| && combined[j] == r;
      assert combined[j].deferred.id in deferredBy;
    }
    assert IsReady(candidates, c, enabled);
    var row := RowOf(c, candidates, deferredBy);
    assert row.candidate == c;
    assert row.groupSize == |Group(candidates, c.key)|;
    assert row.deferredBy == None;
  }

  lemma SameCandidate(candidates: seq<Candidate>, c: Candidate, d: Candidate)
    requires DistinctBy(candidates, IdOf()) && c in candidates && d in candidates && c.id == d.id
    ensures c == d
  {
    var i :| 0 <= i < |candidates| && candidates[i] == c;
    var j :| 0 <= j < |candidates| && candidates[j] == d;
    assert IdOf()(candidates[i]) == IdOf()(candidates[j]);
  }

  function RowId(): Row -> int { (row: Row) => row.candidate.id }

  /** As many rows are marked deferred as there are combined audit rows. */
  lemma CountsAgree(candidates: seq<Candidate>, combined: seq<AuditRow>, rows: seq<Row>, enabled: seq<Criterion>)
    requires AllComparable(candidates) && DistinctBy(candidates, IdOf())
    requires AreRows(combined, candidates, candidates, enabled)
    requires |rows| == |candidates| && RowsAreRight(rows, Sort(candidates, CandidateKey()), candidates, enabled)
    ensures |Where(rows, DeferredRow())| == |combined| && |Where(rows, ReadyRow())| == |candidates| - |combined|
  {
    var listed, deferred := Sort(candidates, CandidateKey()), Where(rows, DeferredRow());
    SortIsSorted(candidates, CandidateKey());
    SortDistinct(candidates, CandidateKey(), IdOf());
    hide Comparable, AllComparable, Beats, Group, IsDeferrer, Sort;
    forall a, b | 0 <= a < b < |rows| ensures RowId()(rows[a]) != RowId()(rows[b]) {
      assert IdOf()(listed[a]) != IdOf()(listed[b]);
    }
    WhereDistinct(rows, DeferredRow(), RowId());
    IdsCount(deferred, RowId());
    IdsCount(combined, DeferredId());
    WhereSplits(rows, DeferredRow(), ReadyRow());
    DeferredIdsAgree(candidates, combined, rows, listed, enabled);
  }

  lemma DeferredIdsAgree(candidates: seq<Candidate>, combined: seq<AuditRow>, rows: seq<Row>, listed: seq<Candidate>,
                         enabled: seq<Criterion>)
    requires AllComparable(candidates) && AreRows(combined, candidates, candidates, enabled)
    requires |listed| == |rows|
    requires (forall c :: c in candidates ==> c in listed) && RowsAreRight(rows, listed, candidates, enabled)
    ensures Ids(Where(rows, DeferredRow()), RowId()) == Ids(combined, DeferredId())
  {
    var deferred := Where(rows, DeferredRow());
    hide Comparable, AllComparable, Beats, Group, IsDeferrer, IsReady;
    forall k | 0 <= k < |deferred| ensures RowId()(deferred[k]) in Ids(combined, DeferredId()) {
      assert deferred[k] in deferred;
      var j :| 0 <= j < |rows| && rows[j] == deferred[k];
      DeferredHasRow(candidates, combined, rows[j], listed[j], enabled);
    }
    forall m | 0 <= m < |combined| ensures DeferredId()(combined[m]) in Ids(deferred, RowId()) {
      assert combined[m] in combined && IsRow(candidates, combined[m], enabled);
      var j :| 0 <= j < |listed| && listed[j] == combined[m].deferred;
      RowedIsDeferred(candidates, combined[m], rows[j], listed[j], enabled);
      WhereHas(rows, DeferredRow(), rows[j]);
      var k :| 0 <= k < |deferred| && deferred[k] == rows[j];
      assert RowId()(deferred[k]) in Ids(deferred, RowId());
    }
  }

  lemma DeferredHasRow(candidates: seq<Candidate>, combined: seq<AuditRow>, row: Row, c: Candidate,
                       enabled: seq<Criterion>)
    requires AllComparable(candidates) && AreRows(combined, candidates, candidates, enabled)
    requires c in candidates && RowIsRight(row, c, candidates, enabled) && DeferredRow()(row)
    ensures RowId()(row) in Ids(combined, DeferredId())
  {
    var r :| r in combined && r.deferred == c;
    var m :| 0 <= m < |combined| && combined[m] == r;
    assert DeferredId()(combined[m]) == RowId()(row);
  }

  lemma RowedIsDeferred(candidates: seq<Candidate>, r: AuditRow, row: Row, c: Candidate, enabled: seq<Criterion>)
    requires AllComparable(candidates) && IsRow(candidates, r, enabled) && r.deferred == c
    requires c in candidates && RowIsRight(row, c, candidates, enabled)
    ensures DeferredRow()(row) && RowId()(row) == DeferredId()(r)
  {
  }

  /** Every combined deferral also stands in the standalone list of one of the enabled criteria. */
  lemma CombinedDeferralStandsAlone(candidates: seq<Candidate>, result: FilterResult, enabled: seq<Criterion>,
                                    r: AuditRow)
    requires AllComparable(candidates) && AreRows(result.combined, candidates, candidates, enabled)
    requires r in result.combined
    requires forall name :: name in enabled ==>
      name in result.standalone && AreRows(result.standalone[name], candidates, candidates, [name])
    ensures exists name, q :: name in enabled && q in result.standalone[name] && q.deferred == r.deferred
  {
    assert IsRow(candidates, r, enabled) && Beats(candidates, r.deferrer, r.deferred, enabled);
    hide AreRows, IsReady, IsDeferrer, AllComparable, Dominates;
    var name := AloneToo(candidates, r.deferrer, r.deferred, enabled);
    hide *;
    var q := RowOfDeferred(result.standalone[name], candidates, r.deferred, [name]);
  }

  lemma AloneToo(candidates: seq<Candidate>, d: Candidate, c: Candidate, enabled: seq<Criterion>)
    returns (name: Criterion)
    requires AllComparable(candidates) && c in candidates && Beats(candidates, d, c, enabled)
    ensures name in enabled && !IsReady(candidates, c, [name])
  {
    name := CombinedShowsAlone(d, c, enabled);
    assert Beats(candidates, d, c, [name]);
  }

  lemma RowOfDeferred(rows: seq<AuditRow>, candidates: seq<Candidate>, c: Candidate, criteria: seq<Criterion>)
    returns (q: AuditRow)
    requires AllComparable(candidates) && AreRows(rows, candidates, candidates, criteria)
    requires c in candidates && !IsReady(candidates, c, criteria)
    ensures q in rows && q.deferred == c
  {
    hide AllComparable, IsReady, IsRow;
    q :| q in rows && q.deferred == c;
  }

  /** With no criterion enabled nobody is deferred. */
  lemma NoCriteriaNoDeferral(candidates: seq<Candidate>, c: Candidate)
    requires AllComparable(candidates) && c in candidates
    ensures IsReady(candidates, c, [])
  {
  }

  lemma NoCriteriaNoRows(candidates: seq<Candidate>, rows: seq<AuditRow>)
    requires AllComparable(candidates) && AreRows(rows, candidates, candidates, [])
    ensures rows == []
  {
    if rows != [] {
      assert rows[0] in rows;
      NoCriteriaNoDeferral(candidates, rows[0].deferred);
      assert false;
    }
  }
}
