/** `sorted`: of a set of numbers, and stably of a list by a pair of numbers. */
module Sorting {

  predicate Increasing(s: seq<int>) {
    forall a, b :: 0 <= a < b < |s| ==> s[a] < s[b]
  }

  lemma AnyMember<T>(s: set<T>) returns (x: T)
    requires s != {}
    ensures x in s
  {
    x :| x in s;
  }

  lemma {:induction false} Least(s: set<int>) returns (least: int)
    requires s != {}
    ensures least in s && forall y :: y in s ==> least <= y
  {
    var first := AnyMember(s);
    var rest := s - {first};
    least := first;
    if rest != {} {
      var m := Least(rest);
      if m < first {
        least := m;
      }
    }
    forall y | y in s ensures least <= y {
      if y != first {
        assert y in rest;
      }
    }
  }

  method SortedSet(s: set<int>) returns (ordered: seq<int>)
    ensures Increasing(ordered) && forall x :: x in ordered <==> x in s
  {
    ordered := [];
    var left := s;
    while left != {}
      invariant Increasing(ordered) && left <= s
      invariant forall x :: x in s <==> x in ordered || x in left
      invariant forall x, later :: x in ordered && later in left ==> x < later
      decreases left
    {
      ghost var bottom := Least(left);
      var least :| least in left && forall y :: y in left ==> least <= y;
      forall k | 0 <= k < |ordered| ensures ordered[k] < least { assert ordered[k] in ordered; }
      ordered, left := ordered + [least], left - {least};
    }
  }

  // ----- Stable sort by a lexicographic pair

  predicate AtMost(a: (int, int), b: (int, int)) {
    a.0 < b.0 || (a.0 == b.0 && a.1 <= b.1)
  }

  /** Put `x` behind every element whose key is not above its own. */
  function Insert<T>(s: seq<T>, x: T, key: T -> (int, int)): (r: seq<T>)
    ensures |r| == |s| + 1
  {
    if s == [] || AtMost(key(s[|s| - 1]), key(x)) then s + [x]
    else Insert(s[..|s| - 1], x, key) + [s[|s| - 1]]
  }

  function Sort<T>(s: seq<T>, key: T -> (int, int)): (r: seq<T>)
    ensures |r| == |s|
  {
    if s == [] then [] else Insert(Sort(s[..|s| - 1], key), s[|s| - 1], key)
  }

  predicate SortedBy<T>(s: seq<T>, key: T -> (int, int)) {
    forall a, b :: 0 <= a <= b < |s| ==> AtMost(key(s[a]), key(s[b]))
  }

  lemma {:induction false} InsertMembers<T>(s: seq<T>, x: T, key: T -> (int, int))
    ensures multiset(Insert(s, x, key)) == multiset(s) + multiset{x}
    ensures forall y :: y in Insert(s, x, key) <==> y in s || y == x
  {
    if s == [] || AtMost(key(s[|s| - 1]), key(x)) {
    } else {
      InsertMembers(s[..|s| - 1], x, key);
      assert s == s[..|s| - 1] + [s[|s| - 1]];
    }
  }

  lemma {:induction false} InsertKeepsAll<T>(s: seq<T>, x: T, key: T -> (int, int), p: T -> bool)
    requires p(x) && forall k :: 0 <= k < |s| ==> p(s[k])
    ensures forall k :: 0 <= k <= |s| ==> p(Insert(s, x, key)[k])
  {
    if s == [] || AtMost(key(s[|s| - 1]), key(x)) {
    } else {
      InsertKeepsAll(s[..|s| - 1], x, key, p);
    }
  }

  lemma {:induction false} InsertSorted<T>(s: seq<T>, x: T, key: T -> (int, int))
    requires SortedBy(s, key)
    ensures SortedBy(Insert(s, x, key), key)
  {
    if s == [] || AtMost(key(s[|s| - 1]), key(x)) {
    } else {
      var most, last := s[..|s| - 1], s[|s| - 1];
      InsertSorted(most, x, key);
      assert forall k :: 0 <= k < |most| ==> AtMost(key(s[k]), key(s[|s| - 1]));
      InsertKeepsAll(most, x, key, y => AtMost(key(y), key(last)));
    }
  }

  lemma {:induction false} SortIsSorted<T>(s: seq<T>, key: T -> (int, int))
    ensures SortedBy(Sort(s, key), key)
    ensures multiset(Sort(s, key)) == multiset(s)
    ensures forall y :: y in Sort(s, key) <==> y in s
  {
    SortOrders(s, key);
    SortPermutes(s, key);
    hide Sort;
    forall y ensures y in Sort(s, key) <==> y in s {
      assert y in Sort(s, key) <==> y in multiset(Sort(s, key));
      assert y in s <==> y in multiset(s);
    }
  }

  lemma {:induction false} SortOrders<T>(s: seq<T>, key: T -> (int, int))
    ensures SortedBy(Sort(s, key), key)
  {
    if s != [] {
      SortOrders(s[..|s| - 1], key);
      InsertSorted(Sort(s[..|s| - 1], key), s[|s| - 1], key);
    }
  }

  lemma {:induction false} SortPermutes<T>(s: seq<T>, key: T -> (int, int))
    ensures multiset(Sort(s, key)) == multiset(s)
  {
    if s != [] {
      var most, last := s[..|s| - 1], s[|s| - 1];
      SortPermutes(most, key);
      InsertMembers(Sort(most, key), last, key);
      assert s == most + [last];
    }
  }

  // ----- Sums and selections do not notice the order

  function Total(s: seq<real>): real {
    if s == [] then 0.0 else Total(s[..|s| - 1]) + s[|s| - 1]
  }

  function Sum<T>(s: seq<T>, f: T -> real): real {
    if s == [] then 0.0 else Sum(s[..|s| - 1], f) + f(s[|s| - 1])
  }

  function Where<T>(s: seq<T>, p: T -> bool): (r: seq<T>)
    ensures forall y :: y in r ==> y in s && p(y)
  {
    if s == [] then []
    else if p(s[|s| - 1]) then Where(s[..|s| - 1], p) + [s[|s| - 1]]
    else Where(s[..|s| - 1], p)
  }

  lemma SumSnoc<T>(s: seq<T>, x: T, f: T -> real)
    ensures Sum(s + [x], f) == Sum(s, f) + f(x)
  {
    assert (s + [x])[..|s|] == s;
  }

  lemma WhereSnoc<T>(s: seq<T>, x: T, p: T -> bool)
    ensures Where(s + [x], p) == if p(x) then Where(s, p) + [x] else Where(s, p)
  {
    assert (s + [x])[..|s|] == s;
  }

  /** The positions that qualify. */
  function Positions<T>(s: seq<T>, p: T -> bool): seq<nat> {
    if s == [] then [] else Positions(s[..|s| - 1], p) + if p(s[|s| - 1]) then [|s| - 1] else []
  }

  lemma {:induction false} PositionsAre<T>(s: seq<T>, p: T -> bool)
    ensures forall k: nat :: k in Positions(s, p) <==> k < |s| && p(s[k])
  {
    if s != [] {
      PositionsAre(s[..|s| - 1], p);
    }
  }

  ghost predicate Ascending(at: seq<nat>) {
    forall i, j :: 0 <= i < j < |at| ==> at[i] < at[j]
  }

  lemma AscendingSnoc(at: seq<nat>, n: nat)
    requires Ascending(at) && forall k :: k in at ==> k < n
    ensures Ascending(at + [n])
  {
    assert forall i :: 0 <= i < |at| ==> at[i] in at;
  }

  lemma {:induction false} PositionsAscend<T>(s: seq<T>, p: T -> bool)
    ensures Ascending(Positions(s, p))
  {
    if s != [] {
      var n := |s| - 1;
      PositionsAscend(s[..n], p);
      PositionsAre(s[..n], p);
      var at := Positions(s[..n], p);
      AscendingSnoc(at, n);
    }
  }

  lemma {:induction false} WhereAtPositions<T>(s: seq<T>, p: T -> bool)
    ensures |Where(s, p)| == |Positions(s, p)|
    ensures forall i :: 0 <= i < |Where(s, p)| ==> Positions(s, p)[i] < |s| && Where(s, p)[i] == s[Positions(s, p)[i]]
  {
    if s != [] {
      WhereAtPositions(s[..|s| - 1], p);
    }
  }

  /** A selection keeps exactly the positions that qualify, in their order. */
  lemma WherePositions<T>(s: seq<T>, p: T -> bool) returns (at: seq<nat>)
    ensures |at| == |Where(s, p)| && forall i :: 0 <= i < |at| ==> at[i] < |s| && s[at[i]] == Where(s, p)[i]
    ensures Ascending(at) && forall k: nat :: k in at <==> k < |s| && p(s[k])
  {
    at := Positions(s, p);
    PositionsAre(s, p);
    PositionsAscend(s, p);
    WhereAtPositions(s, p);
    hide Positions, Where, Ascending;
  }

  /** An ascending list is as long as the set of its members. */
  lemma {:induction false} AscendingCounts(s: seq<nat>, members: set<nat>)
    requires Ascending(s) && forall k: nat :: k in s <==> k in members
    ensures |s| == |members|
  {
    if s == [] {
      assert members == {};
    } else {
      var most, last := s[..|s| - 1], s[|s| - 1];
      forall k: nat ensures k in most <==> k in members - {last} {
        if k in most {
          var i :| 0 <= i < |most| && most[i] == k;
          assert s[i] < last;
        }
        if k in members - {last} {
          assert k in s;
        }
      }
      AscendingCounts(most, members - {last});
      assert last in s;
    }
  }

  lemma {:induction false} SumInsert<T>(s: seq<T>, x: T, key: T -> (int, int), f: T -> real)
    ensures Sum(Insert(s, x, key), f) == Sum(s, f) + f(x)
  {
    if s == [] || AtMost(key(s[|s| - 1]), key(x)) {
      SumSnoc(s, x, f);
    } else {
      SumInsert(s[..|s| - 1], x, key, f);
      SumSnoc(Insert(s[..|s| - 1], x, key), s[|s| - 1], f);
    }
  }

  lemma {:induction false} SumSort<T>(s: seq<T>, key: T -> (int, int), f: T -> real)
    ensures Sum(Sort(s, key), f) == Sum(s, f)
  {
    if s != [] {
      SumSort(s[..|s| - 1], key, f);
      SumInsert(Sort(s[..|s| - 1], key), s[|s| - 1], key, f);
    }
  }

  lemma {:induction false} WhereInsert<T>(s: seq<T>, x: T, key: T -> (int, int), p: T -> bool)
    requires SortedBy(s, key)
    ensures Where(Insert(s, x, key), p) == if p(x) then Insert(Where(s, p), x, key) else Where(s, p)
  {
    var kept := Where(s, p);
    if s == [] || AtMost(key(s[|s| - 1]), key(x)) {
      WhereSnoc(s, x, p);
      if kept != [] {
        assert kept[|kept| - 1] in kept && kept[|kept| - 1] in s;
      }
    } else {
      var most, last := s[..|s| - 1], s[|s| - 1];
      WhereInsert(most, x, key, p);
      WhereSnoc(Insert(most, x, key), last, p);
      if p(last) {
        assert kept == Where(most, p) + [last];
        assert kept[..|kept| - 1] == Where(most, p);
      }
    }
  }

  lemma {:induction false} WhereSort<T>(s: seq<T>, key: T -> (int, int), p: T -> bool)
    ensures Where(Sort(s, key), p) == Sort(Where(s, p), key)
  {
    if s != [] {
      var most, last := s[..|s| - 1], s[|s| - 1];
      WhereSort(most, key, p);
      SortIsSorted(most, key);
      WhereInsert(Sort(most, key), last, key, p);
      if p(last) {
        assert Where(s, p)[..|Where(most, p)|] == Where(most, p);
      }
    }
  }

  /** The sort is stable: elements of one key keep their order. */
  lemma SortIsStable<T>(s: seq<T>, key: T -> (int, int), p: T -> bool)
    requires forall x, y :: x in s && y in s && p(x) && p(y) ==> key(x) == key(y)
    ensures Where(Sort(s, key), p) == Where(s, p)
  {
    WhereSort(s, key, p);
    EqualKeysStay(Where(s, p), key);
    hide Sort, Where;
  }

  lemma {:induction false} EqualKeysStay<T>(s: seq<T>, key: T -> (int, int))
    requires forall x, y :: x in s && y in s ==> key(x) == key(y)
    ensures Sort(s, key) == s
  {
    if s != [] {
      var most := s[..|s| - 1];
      EqualKeysStay(most, key);
      assert most != [] ==> most[|most| - 1] in s && s[|s| - 1] in s;
      assert s == most + [s[|s| - 1]];
    }
  }

  lemma {:induction false} WherePrefix<T>(s: seq<T>, n: nat, p: T -> bool)
    requires n <= |s|
    ensures Where(s[..n], p) <= Where(s, p)
    decreases |s| - n
  {
    if n < |s| {
      assert s[..n + 1] == s[..n] + [s[n]];
      WhereSnoc(s[..n], s[n], p);
      WherePrefix(s, n + 1, p);
    } else {
      assert s[..n] == s;
    }
  }

  /** A walk over `s` that skips what `p` rejects meets the elements of `Where(s, p)` in turn. */
  lemma WhereStep<T>(s: seq<T>, k: nat, p: T -> bool, n: nat)
    requires k < |s| && n == |Where(s[..k], p)|
    ensures n <= |Where(s, p)| && Where(s[..k], p) == Where(s, p)[..n]
    ensures !p(s[k]) ==> Where(s[..k + 1], p) == Where(s[..k], p)
    ensures p(s[k]) ==> n < |Where(s, p)| && Where(s, p)[n] == s[k] && Where(s[..k + 1], p) == Where(s, p)[..n + 1]
  {
    var whole, upTo, after := Where(s, p), Where(s[..k], p), Where(s[..k + 1], p);
    WherePrefix(s, k, p);
    WherePrefix(s, k + 1, p);
    assert s[..k + 1] == s[..k] + [s[k]];
    WhereSnoc(s[..k], s[k], p);
    PrefixGrows(whole, upTo, after, s[k], p(s[k]));
  }

  lemma PrefixGrows<T>(whole: seq<T>, part: seq<T>, more: seq<T>, x: T, grows: bool)
    requires part <= whole && more <= whole && more == if grows then part + [x] else part
    ensures part == whole[..|part|]
    ensures grows ==> |part| < |whole| && whole[|part|] == x && more == whole[..|part| + 1]
  {
  }

  lemma {:induction false} WhereTwice<T>(s: seq<T>, p: T -> bool, q: T -> bool, both: T -> bool)
    requires forall k :: 0 <= k < |s| ==> both(s[k]) == (p(s[k]) && q(s[k]))
    ensures Where(Where(s, p), q) == Where(s, both)
  {
    if s != [] {
      WhereTwice(s[..|s| - 1], p, q, both);
      if p(s[|s| - 1]) {
        WhereSnoc(Where(s[..|s| - 1], p), s[|s| - 1], q);
      }
    }
  }

  /** Elements outside `p` may be ignored by a sum whose weight vanishes on them. */
  lemma {:induction false} SumSkips<T>(s: seq<T>, p: T -> bool, q: T -> bool, f: T -> real)
    requires forall k :: 0 <= k < |s| && !p(s[k]) ==> f(s[k]) == 0.0
    ensures Sum(Where(s, q), f) == Sum(Where(Where(s, p), q), f)
  {
    if s != [] {
      var most, last := s[..|s| - 1], s[|s| - 1];
      SumSkips(most, p, q, f);
      if q(last) {
        SumSnoc(Where(most, q), last, f);
      }
      if p(last) {
        WhereSnoc(Where(most, p), last, q);
        SumSnoc(Where(Where(most, p), q), last, f);
      }
    }
  }

  /** A weight that is a linear mix of others, summed. */
  lemma {:induction false} SumLinear<T>(s: seq<T>, f: T -> real, a: T -> real, b: T -> real, c: T -> real)
    requires forall k :: 0 <= k < |s| ==> f(s[k]) == a(s[k]) - b(s[k]) + c(s[k])
    ensures Sum(s, f) == Sum(s, a) - Sum(s, b) + Sum(s, c)
  {
    if s != [] {
      SumLinear(s[..|s| - 1], f, a, b, c);
    }
  }

  // ----- Distinct keys

  ghost predicate DistinctBy<T>(s: seq<T>, id: T -> int) {
    forall a, b :: 0 <= a < b < |s| ==> id(s[a]) != id(s[b])
  }

  lemma {:induction false} InsertDistinct<T>(s: seq<T>, x: T, key: T -> (int, int), id: T -> int)
    requires DistinctBy(s, id) && forall k :: 0 <= k < |s| ==> id(s[k]) != id(x)
    ensures DistinctBy(Insert(s, x, key), id)
  {
    if s == [] || AtMost(key(s[|s| - 1]), key(x)) {
    } else {
      var most, last := s[..|s| - 1], s[|s| - 1];
      InsertDistinct(most, x, key, id);
      assert forall k :: 0 <= k < |most| ==> id(s[k]) != id(s[|s| - 1]);
      InsertKeepsAll(most, x, key, y => id(y) != id(last));
    }
  }

  lemma {:induction false} SortKeepsAll<T>(s: seq<T>, key: T -> (int, int), p: T -> bool)
    requires forall k :: 0 <= k < |s| ==> p(s[k])
    ensures forall k :: 0 <= k < |s| ==> p(Sort(s, key)[k])
  {
    if s != [] {
      SortKeepsAll(s[..|s| - 1], key, p);
      InsertKeepsAll(Sort(s[..|s| - 1], key), s[|s| - 1], key, p);
    }
  }

  lemma {:induction false} SortDistinct<T>(s: seq<T>, key: T -> (int, int), id: T -> int)
    requires DistinctBy(s, id)
    ensures DistinctBy(Sort(s, key), id)
  {
    if s != [] {
      var most, last := s[..|s| - 1], s[|s| - 1];
      SortDistinct(most, key, id);
      assert forall k :: 0 <= k < |most| ==> id(s[k]) != id(s[|s| - 1]);
      SortKeepsAll(most, key, y => id(y) != id(last));
      InsertDistinct(Sort(most, key), last, key, id);
    }
  }

  lemma {:induction false} WhereDistinct<T>(s: seq<T>, p: T -> bool, id: T -> int)
    requires DistinctBy(s, id)
    ensures DistinctBy(Where(s, p), id)
  {
    if s != [] {
      var most, last := s[..|s| - 1], s[|s| - 1];
      WhereDistinct(most, p, id);
      var kept := Where(most, p);
      forall k | 0 <= k < |kept| ensures id(kept[k]) != id(last) {
        assert kept[k] in most;
        var j :| 0 <= j < |most| && most[j] == kept[k];
        assert id(s[j]) != id(s[|s| - 1]);
      }
    }
  }

  function Ids<T>(s: seq<T>, id: T -> int): set<int> {
    set k | 0 <= k < |s| :: id(s[k])
  }

  lemma {:induction false} IdsCount<T>(s: seq<T>, id: T -> int)
    requires DistinctBy(s, id)
    ensures |Ids(s, id)| == |s|
  {
    if s != [] {
      var most, last := s[..|s| - 1], s[|s| - 1];
      IdsCount(most, id);
      assert forall k :: 0 <= k < |most| ==> id(s[k]) != id(s[|s| - 1]);
      assert Ids(s, id) == Ids(most, id) + {id(last)};
    }
  }

  lemma {:induction false} WhereSplits<T>(s: seq<T>, p: T -> bool, q: T -> bool)
    requires forall k :: 0 <= k < |s| ==> q(s[k]) == !p(s[k])
    ensures |Where(s, p)| + |Where(s, q)| == |s|
  {
    if s != [] {
      WhereSplits(s[..|s| - 1], p, q);
    }
  }

  lemma {:induction false} WhereHas<T>(s: seq<T>, p: T -> bool, x: T)
    requires x in s && p(x)
    ensures x in Where(s, p)
  {
    var most, last := s[..|s| - 1], s[|s| - 1];
    if x != last {
      assert s == most + [last];
      WhereHas(most, p, x);
    }
  }

  /** Two sorted lists with distinct first keys and the same members are the same list. */
  lemma {:induction false} SortedUnique<T(!new)>(s: seq<T>, t: seq<T>, key: T -> (int, int), id: T -> int)
    requires forall x :: key(x).0 == id(x)
    requires SortedBy(s, key) && SortedBy(t, key) && DistinctBy(s, id) && DistinctBy(t, id)
    requires forall x :: x in s <==> x in t
    ensures s == t
  {
    if s == [] {
      assert forall k :: 0 <= k < |t| ==> t[k] in t;
    } else {
      assert s[0] in s && t != [];
      assert t[0] in t;
      var i :| 0 <= i < |s| && s[i] == t[0];
      var j :| 0 <= j < |t| && t[j] == s[0];
      assert AtMost(key(s[0]), key(s[i])) && AtMost(key(t[0]), key(t[j]));
      assert i == 0;
      forall x ensures x in s[1..] <==> x in t[1..] {
        assert x in s[1..] ==> id(x) != id(s[0]);
        assert x in t[1..] ==> id(x) != id(t[0]);
        assert x in s ==> x == s[0] || x in s[1..];
        assert x in t ==> x == t[0] || x in t[1..];
      }
      SortedUnique(s[1..], t[1..], key, id);
    }
  }
}
