/** The shortlist in terms of the candidates' fields: what dominance compares, who is named as the deferrer, and in
    which order the lists come. */
module ShortlistMeaning {
  import opened Shortlist
  import opened Sorting
  import opened Wrappers

  ghost predicate AtLeast(left: seq<real>, right: seq<real>) {
    |left| == |right| && forall i :: 0 <= i < |left| ==> left[i] >= right[i]
  }

  ghost predicate Exceeds(left: seq<real>, right: seq<real>) {
    exists i :: 0 <= i < |left| && i < |right| && left[i] > right[i]
  }

  /** A candidate dominates another of the same key exactly when it is at least as good in every order on every
      enabled criterion, and better in some order on one of them. */
  lemma DominatesMeans(left: Candidate, right: Candidate, criteria: seq<Criterion>)
    requires Comparable(left, right)
    ensures (Dominates(left, right, criteria) <==>
        && left.key == right.key
        && (SourcePnl in criteria ==> AtLeast(left.pnl, right.pnl))
        && (Efficiency in criteria ==> AtLeast(left.efficiency, right.efficiency))
        && (CloseSupport in criteria ==> AtLeast(left.support, right.support))
        && (PointEventCount in criteria ==> AtLeast(left.events, right.events))
        && (|| (SourcePnl in criteria && Exceeds(left.pnl, right.pnl))
            || (Efficiency in criteria && Exceeds(left.efficiency, right.efficiency))
            || (CloseSupport in criteria && Exceeds(left.support, right.support))
            || (PointEventCount in criteria && Exceeds(left.events, right.events))))
  {
    MinimumTestIsRedundant(left, right, criteria);
    hide Dominates;
    if left.key == right.key {
      forall name: Criterion
        ensures |ValuesOf(left, name)| == |ValuesOf(right, name)|
        ensures NotBelow(ValuesOf(left, name), ValuesOf(right, name)) <==> IsAtLeast(left, right, name)
        ensures SomewhereAbove(ValuesOf(left, name), ValuesOf(right, name)) <==> IsAbove(left, right, name)
      {
        CriterionMeans(left, right, name);
      }
      hide NotBelow, SomewhereAbove, AtLeast, Exceeds, ValuesOf, Comparable;
      OneOfFour(left, right, criteria);
    }
  }

  ghost predicate IsAtLeast(left: Candidate, right: Candidate, name: Criterion) {
    match name
    case SourcePnl => AtLeast(left.pnl, right.pnl)
    case Efficiency => AtLeast(left.efficiency, right.efficiency)
    case CloseSupport => AtLeast(left.support, right.support)
    case PointEventCount => AtLeast(left.events, right.events)
  }

  ghost predicate IsAbove(left: Candidate, right: Candidate, name: Criterion) {
    match name
    case SourcePnl => Exceeds(left.pnl, right.pnl)
    case Efficiency => Exceeds(left.efficiency, right.efficiency)
    case CloseSupport => Exceeds(left.support, right.support)
    case PointEventCount => Exceeds(left.events, right.events)
  }

  lemma CriterionMeans(left: Candidate, right: Candidate, name: Criterion)
    requires Comparable(left, right) && left.key == right.key
    ensures |ValuesOf(left, name)| == |ValuesOf(right, name)|
    ensures NotBelow(ValuesOf(left, name), ValuesOf(right, name)) <==> IsAtLeast(left, right, name)
    ensures SomewhereAbove(ValuesOf(left, name), ValuesOf(right, name)) <==> IsAbove(left, right, name)
  {
  }

  lemma OneOfFour(left: Candidate, right: Candidate, criteria: seq<Criterion>)
    ensures ((exists name :: name in criteria && IsAbove(left, right, name)) <==>
        || (SourcePnl in criteria && Exceeds(left.pnl, right.pnl))
        || (Efficiency in criteria && Exceeds(left.efficiency, right.efficiency))
        || (CloseSupport in criteria && Exceeds(left.support, right.support))
        || (PointEventCount in criteria && Exceeds(left.events, right.events)))
    ensures ((forall name :: name in criteria ==> IsAtLeast(left, right, name)) <==>
        && (SourcePnl in criteria ==> AtLeast(left.pnl, right.pnl))
        && (Efficiency in criteria ==> AtLeast(left.efficiency, right.efficiency))
        && (CloseSupport in criteria ==> AtLeast(left.support, right.support))
        && (PointEventCount in criteria ==> AtLeast(left.events, right.events)))
  {
    hide Exceeds, AtLeast;
    assert IsAbove(left, right, SourcePnl) == Exceeds(left.pnl, right.pnl);
    assert IsAbove(left, right, Efficiency) == Exceeds(left.efficiency, right.efficiency);
    assert IsAbove(left, right, CloseSupport) == Exceeds(left.support, right.support);
    assert IsAbove(left, right, PointEventCount) == Exceeds(left.events, right.events);
    assert IsAtLeast(left, right, SourcePnl) == AtLeast(left.pnl, right.pnl);
    assert IsAtLeast(left, right, Efficiency) == AtLeast(left.efficiency, right.efficiency);
    assert IsAtLeast(left, right, CloseSupport) == AtLeast(left.support, right.support);
    assert IsAtLeast(left, right, PointEventCount) == AtLeast(left.events, right.events);
    if name :| name in criteria && IsAbove(left, right, name) {
      match name
      case SourcePnl =>
      case Efficiency =>
      case CloseSupport =>
      case PointEventCount =>
    }
    if && (SourcePnl in criteria ==> AtLeast(left.pnl, right.pnl))
       && (Efficiency in criteria ==> AtLeast(left.efficiency, right.efficiency))
       && (CloseSupport in criteria ==> AtLeast(left.support, right.support))
       && (PointEventCount in criteria ==> AtLeast(left.events, right.events)) {
      forall name | name in criteria ensures IsAtLeast(left, right, name) {
        match name
        case SourcePnl =>
        case Efficiency =>
        case CloseSupport =>
        case PointEventCount =>
      }
    }
  }

  /** The deferrer is the dominator of the least structure, and among these of the least identifier. */
  lemma DeferrerMeans(candidates: seq<Candidate>, d: Candidate, c: Candidate, criteria: seq<Criterion>)
    requires AllComparable(candidates) && c in candidates
    ensures (IsDeferrer(candidates, d, c, criteria) <==>
        && d in candidates && Dominates(d, c, criteria)
        && forall e :: e in candidates && Dominates(e, c, criteria) ==>
             d.structure < e.structure || (d.structure == e.structure && d.id <= e.id))
  {
    hide Dominates, Comparable;
    forall e | e in candidates
      ensures Comparable(e, c) && (Beats(candidates, e, c, criteria) <==> Dominates(e, c, criteria))
    {
      var i :| 0 <= i < |candidates| && candidates[i] == e;
      var j :| 0 <= j < |candidates| && candidates[j] == c;
      assert Comparable(candidates[i], candidates[j]);
    }
  }

  /** The group of a candidate is counted over all positions that hold its key. */
  lemma GroupCounts(candidates: seq<Candidate>, key: int)
    ensures |Group(candidates, key)| == |set k: nat | k < |candidates| && candidates[k].key == key|
  {
    var at := WherePositions(candidates, InGroup(key));
    AscendingCounts(at, set k: nat | k < |candidates| && candidates[k].key == key);
  }

  /** The shortlist shows every candidate once, by key and then identifier, with the size of its group, and says
      either that nobody dominates it or who defers it. */
  lemma ListMeans(rows: seq<Row>, candidates: seq<Candidate>, enabled: seq<Criterion>)
    requires AllComparable(candidates) && |rows| == |candidates|
    requires RowsAreRight(rows, Sort(candidates, CandidateKey()), candidates, enabled)
    ensures forall a, b :: 0 <= a < b < |rows| ==> var c, d := rows[a].candidate, rows[b].candidate;
      c.key < d.key || (c.key == d.key && c.id <= d.id)
    ensures forall c :: c in candidates ==> exists k :: 0 <= k < |rows| && rows[k].candidate == c
    ensures (forall k :: 0 <= k < |rows| ==>
        && rows[k].candidate in candidates
        && rows[k].groupSize == |set j: nat | j < |candidates| && candidates[j].key == rows[k].candidate.key|)
    ensures (forall k :: 0 <= k < |rows| && rows[k].deferredBy == None ==>
        forall d :: d in candidates ==> !(rows[k].candidate in candidates && Dominates(d, rows[k].candidate, enabled)))
    ensures (forall k :: 0 <= k < |rows| && rows[k].deferredBy.Some? ==>
        exists d :: d in candidates && rows[k].candidate in candidates
          && IsDeferrer(candidates, d, rows[k].candidate, enabled)
          && rows[k].deferredBy.value.0 == d.structure && rows[k].deferredBy.value.1 == d.id)
  {
    var listed := Sort(candidates, CandidateKey());
    SortIsSorted(candidates, CandidateKey());
    hide Sorting.Sort, Group, Dominates, AllComparable;
    forall k | 0 <= k < |rows|
      ensures RowIsRight(rows[k], listed[k], candidates, enabled) && rows[k].candidate == listed[k]
      ensures rows[k].groupSize == |set j: nat | j < |candidates| && candidates[j].key == rows[k].candidate.key|
    {
      GroupCounts(candidates, listed[k].key);
    }
    forall a, b | 0 <= a < b < |rows|
      ensures var c, d := rows[a].candidate, rows[b].candidate; c.key < d.key || (c.key == d.key && c.id <= d.id)
    {
      assert AtMost(CandidateKey()(listed[a]), CandidateKey()(listed[b]));
    }
    forall c | c in candidates ensures exists k :: 0 <= k < |rows| && rows[k].candidate == c {
      var k :| 0 <= k < |listed| && listed[k] == c;
      assert rows[k].candidate == c;
    }
  }

  /** The audit lists come by the key and then the identifier of the deferred candidate. */
  lemma AuditOrder(rows: seq<AuditRow>)
    requires SortedBy(rows, RowKey())
    ensures forall a, b :: 0 <= a < b < |rows| ==> var c, d := rows[a].deferred, rows[b].deferred;
      c.key < d.key || (c.key == d.key && c.id <= d.id)
  {
    forall a, b | 0 <= a < b < |rows|
      ensures var c, d := rows[a].deferred, rows[b].deferred; c.key < d.key || (c.key == d.key && c.id <= d.id)
    {
      assert AtMost(RowKey()(rows[a]), RowKey()(rows[b]));
    }
  }
}
