/** Grid clustering by union-find with path halving: the two-dimensional form returns index
    lists, the three-dimensional form the size of every row's cluster. */
module GridClusters {

  // ----- What a cluster is: chains of neighbouring cells

  ghost predicate Chain<C>(cells: seq<C>, near: (C, C) -> bool, path: seq<nat>) {
    && path != []
    && (forall k :: 0 <= k < |path| ==> path[k] < |cells|)
    && (forall k :: 0 < k < |path| ==> near(cells[path[k - 1]], cells[path[k]]))
  }

  /** Some chain of cells, each near the next, leads from `i` to `j`. */
  ghost predicate Joined<C>(cells: seq<C>, near: (C, C) -> bool, i: nat, j: nat) {
    exists path: seq<nat> :: Chain(cells, near, path) && path[0] == i && path[|path| - 1] == j
  }

  ghost predicate Neighbourly<C(!new)>(near: (C, C) -> bool) {
    (forall c :: near(c, c)) && (forall c, d :: near(c, d) ==> near(d, c))
  }

  lemma JoinedStep<C>(cells: seq<C>, near: (C, C) -> bool, i: nat, j: nat)
    requires i < |cells| && j < |cells| && near(cells[i], cells[j])
    ensures Joined(cells, near, i, j)
  {
    assert Chain(cells, near, [i, j]);
  }

  lemma JoinedTransitive<C>(cells: seq<C>, near: (C, C) -> bool, i: nat, j: nat, k: nat)
    requires Joined(cells, near, i, j) && Joined(cells, near, j, k)
    ensures Joined(cells, near, i, k)
  {
    var p: seq<nat> :| Chain(cells, near, p) && p[0] == i && p[|p| - 1] == j;
    var q: seq<nat> :| Chain(cells, near, q) && q[0] == j && q[|q| - 1] == k;
    var r := p + q[1..];
    forall m | 0 < m < |r| ensures near(cells[r[m - 1]], cells[r[m]]) {
      if m >= |p| {
        assert r[m] == q[m - |p| + 1] && r[m - 1] == q[m - |p|];
      }
    }
    assert Chain(cells, near, r) && r[0] == i && r[|r| - 1] == k;
  }

  // ----- The parent list as a forest

  /** Row `k` of a forest: `rep[k]` is the root of its tree and `rank` falls along its parent link. */
  ghost predicate InForest(parent: seq<nat>, rep: seq<nat>, rank: seq<nat>, k: nat)
    requires k < |parent| == |rep| == |rank|
  {
    && parent[k] < |parent|
    && rep[k] < |parent|
    && rep[parent[k]] == rep[k]
    && rep[rep[k]] == rep[k]
    && (parent[k] == k <==> rep[k] == k)
    && (parent[k] != k ==> rank[parent[k]] < rank[k])
  }

  /** Every parent walk ends in the root `rep`: ranks fall along links, so no walk can loop. */
  ghost predicate Forest(parent: seq<nat>, rep: seq<nat>, rank: seq<nat>) {
    |parent| == |rep| == |rank| && forall k :: 0 <= k < |parent| ==> InForest(parent, rep, rank, k)
  }

  lemma HalvingKeepsForest(parent: seq<nat>, rep: seq<nat>, rank: seq<nat>, i: nat)
    requires Forest(parent, rep, rank) && i < |parent| && parent[i] != i
    ensures parent[i] < |parent| && parent[parent[i]] < |parent|
    ensures Forest(parent[i := parent[parent[i]]], rep, rank)
    ensures rank[parent[parent[i]]] < rank[i] && rep[parent[parent[i]]] == rep[i]
  {
    assert InForest(parent, rep, rank, i) && InForest(parent, rep, rank, parent[i]);
    var halved := parent[i := parent[parent[i]]];
    forall k | 0 <= k < |parent| ensures InForest(halved, rep, rank, k) {
      assert InForest(parent, rep, rank, k);
    }
  }

  /** The source's `find`: every step of the walk halves the path behind it. */
  method Find(parent: array<nat>, start: nat, ghost rep: seq<nat>, ghost rank: seq<nat>) returns (i: nat)
    requires start < parent.Length && Forest(parent[..], rep, rank)
    modifies parent
    ensures Forest(parent[..], rep, rank)
    ensures i == rep[start]
  {
    i := start;
    assert InForest(parent[..], rep, rank, i);
    while parent[i] != i
      invariant i < parent.Length && Forest(parent[..], rep, rank)
      invariant rep[i] == rep[start] && InForest(parent[..], rep, rank, i)
      decreases rank[i]
    {
      HalvingKeepsForest(parent[..], rep, rank, i);
      ghost var before := parent[..];
      parent[i] := parent[parent[i]];
      assert parent[..] == before[i := before[before[i]]];
      i := parent[i];
      assert InForest(parent[..], rep, rank, i);
    }
  }

  /** The representatives after the trees of `i` and `j` have been joined under `j`'s root. */
  ghost function Merged(rep: seq<nat>, i: nat, j: nat): (merged: seq<nat>)
    requires i < |rep| && j < |rep|
    ensures |merged| == |rep|
  {
    seq(|rep|, k requires 0 <= k < |rep| => if rep[k] == rep[i] then rep[j] else rep[k])
  }

  ghost function Lifted(rep: seq<nat>, rank: seq<nat>, i: nat, j: nat): (lifted: seq<nat>)
    requires i < |rep| == |rank| && j < |rep| && rep[j] < |rank|
    ensures |lifted| == |rank|
  {
    seq(|rank|, k requires 0 <= k < |rank| => if rep[k] == rep[i] then rank[k] + rank[rep[j]] + 1 else rank[k])
  }

  lemma LinkKeepsForest(parent: seq<nat>, rep: seq<nat>, rank: seq<nat>, i: nat, j: nat)
    requires Forest(parent, rep, rank) && i < |parent| && j < |parent| && rep[i] != rep[j]
    ensures rep[i] < |parent| && rep[j] < |parent|
    ensures Forest(parent[rep[i] := rep[j]], Merged(rep, i, j), Lifted(rep, rank, i, j))
  {
    assert InForest(parent, rep, rank, i) && InForest(parent, rep, rank, j);
    var linked, merged, lifted := parent[rep[i] := rep[j]], Merged(rep, i, j), Lifted(rep, rank, i, j);
    forall k | 0 <= k < |parent| ensures InForest(linked, merged, lifted, k)
    {
      assert InForest(parent, rep, rank, k) && InForest(parent, rep, rank, parent[k]);
    }
  }

  /** One neighbour of the scan: look the cell up and join the two trees when their roots differ. */
  method Visit<C(==)>(parent: array<nat>, index: map<C, nat>, i: nat, cell: C, ghost rep: seq<nat>,
                 ghost rank: seq<nat>)
    returns (ghost rep': seq<nat>, ghost rank': seq<nat>)
    requires Forest(parent[..], rep, rank) && i < parent.Length
    requires forall c :: c in index ==> index[c] < parent.Length
    modifies parent
    ensures Forest(parent[..], rep', rank')
    ensures rep' == if cell in index then Merged(rep, i, index[cell]) else rep
  {
    rep', rank' := rep, rank;
    if cell in index && index[cell] != i {
      var j := index[cell];
      var ri := Find(parent, i, rep, rank);
      var rj := Find(parent, j, rep, rank);
      if ri != rj {
        LinkKeepsForest(parent[..], rep, rank, i, j);
        ghost var before := parent[..];
        parent[ri] := rj;
        assert parent[..] == before[ri := rj];
        rep', rank' := Merged(rep, i, j), Lifted(rep, rank, i, j);
      } else {
        assert Merged(rep, i, j) == rep;
      }
    } else if cell in index {
      assert Merged(rep, i, i) == rep;
    }
  }

  // ----- What the scan maintains about the representatives

  /** Equal representatives only ever arise from chains. */
  ghost predicate Sound<C>(cells: seq<C>, near: (C, C) -> bool, rep: seq<nat>) {
    |rep| == |cells| &&
    forall a, b {:trigger Joined(cells, near, a, b)} ::
      0 <= a < |rep| && 0 <= b < |rep| && rep[a] == rep[b] ==> Joined(cells, near, a, b)
  }

  /** Row `a` already shares its representative with the indexed copy of every cell in `seen`. */
  ghost predicate Reached<C>(index: map<C, nat>, rep: seq<nat>, a: nat, seen: set<C>)
    requires a < |rep| && forall c :: c in index ==> index[c] < |rep|
  {
    forall c :: c in seen && c in index ==> rep[a] == rep[index[c]]
  }

  /** The dictionary of a cell list: a repeated cell keeps its last position. */
  ghost predicate Indexes<C>(index: map<C, nat>, cells: seq<C>, upTo: nat) {
    && (forall c :: c in index ==> index[c] < upTo <= |cells| && cells[index[c]] == c)
    && (forall k :: 0 <= k < upTo <= |cells| ==> cells[k] in index)
    && (forall k :: 0 <= k < upTo <= |cells| ==> k <= index[cells[k]])
  }

  method BuildIndex<C(==)>(cells: seq<C>) returns (index: map<C, nat>)
    ensures Indexes(index, cells, |cells|)
  {
    index := map[];
    for i := 0 to |cells|
      invariant Indexes(index, cells, i)
    {
      index := index[cells[i] := i];
    }
  }

  lemma MergedKeepsSound<C(!new)>(cells: seq<C>, near: (C, C) -> bool, rep: seq<nat>, i: nat, j: nat)
    requires Sound(cells, near, rep) && Neighbourly(near)
    requires i < |cells| && j < |cells| && near(cells[i], cells[j])
    ensures Sound(cells, near, Merged(rep, i, j))
  {
    var merged := Merged(rep, i, j);
    JoinedStep(cells, near, i, j);
    JoinedStep(cells, near, j, i);
    forall a, b | 0 <= a < |rep| && 0 <= b < |rep| && merged[a] == merged[b]
      ensures Joined(cells, near, a, b)
    {
      if rep[a] != rep[b] {
        if rep[a] == rep[i] {
          assert rep[b] == rep[j];
          JoinedTransitive(cells, near, a, i, j);
          JoinedTransitive(cells, near, a, j, b);
        } else {
          assert rep[b] == rep[i] && rep[a] == rep[j];
          JoinedTransitive(cells, near, a, j, i);
          JoinedTransitive(cells, near, a, i, b);
        }
      }
    }
  }

  /** Everything the scan knows once row `i` has looked at the cells in `seen`. */
  ghost predicate Scanned<C>(cells: seq<C>, near: (C, C) -> bool, index: map<C, nat>, rep: seq<nat>, i: nat,
                             seen: set<C>)
    requires Indexes(index, cells, |cells|)
  {
    && Sound(cells, near, rep)
    && i <= |cells|
    && (forall a, c {:trigger near(cells[a], c)} :: 0 <= a < i && c in index && near(cells[a], c) ==>
      rep[a] == rep[index[c]])
    && (i < |cells| ==> Reached(index, rep, i, seen))
  }

  lemma VisitKeepsScanned<C(!new)>(cells: seq<C>, near: (C, C) -> bool, index: map<C, nat>, rep: seq<nat>,
                            rep': seq<nat>,
                                   i: nat, seen: set<C>, cell: C)
    requires Indexes(index, cells, |cells|) && Scanned(cells, near, index, rep, i, seen) && i < |cells|
    requires Neighbourly(near) && near(cells[i], cell)
    requires rep' == if cell in index then Merged(rep, i, index[cell]) else rep
    ensures Scanned(cells, near, index, rep', i, seen + {cell})
  {
    if cell in index {
      MergedKeepsSound(cells, near, rep, i, index[cell]);
    }
  }

  /** One neighbour of row `i`, with what the scan knows afterwards. */
  method Step<C(!new, ==)>(parent: array<nat>, index: map<C, nat>, cells: seq<C>, i: nat, cell: C,
                           ghost near: (C, C) -> bool, ghost rep: seq<nat>, ghost rank: seq<nat>, ghost seen: set<C>)
    returns (ghost rep': seq<nat>, ghost rank': seq<nat>, ghost seen': set<C>)
    requires Forest(parent[..], rep, rank) && Indexes(index, cells, |cells|)
    requires Scanned(cells, near, index, rep, i, seen)
    requires i < |cells| && Neighbourly(near) && near(cells[i], cell)
    modifies parent
    ensures Forest(parent[..], rep', rank') && Scanned(cells, near, index, rep', i, seen') && seen' == seen + {cell}
  {
    rep', rank' := Visit(parent, index, i, cell, rep, rank);
    VisitKeepsScanned(cells, near, index, rep, rep', i, seen, cell);
    seen' := seen + {cell};
  }

  lemma NextRow<C(!new)>(cells: seq<C>, near: (C, C) -> bool, index: map<C, nat>, rep: seq<nat>, i: nat, seen: set<C>)
    requires Indexes(index, cells, |cells|) && Scanned(cells, near, index, rep, i, seen) && i < |cells|
    requires forall c :: near(cells[i], c) ==> c in seen
    ensures Scanned(cells, near, index, rep, i + 1, {})
  {
  }

  /** After the last row the representatives are exactly the clusters. */
  lemma {:induction false} ScanIsComplete<C(!new)>(cells: seq<C>, near: (C, C) -> bool, index: map<C, nat>,
                                            rep: seq<nat>)
    requires Indexes(index, cells, |cells|) && Scanned(cells, near, index, rep, |cells|, {}) && Neighbourly(near)
    ensures forall a, b :: 0 <= a < |cells| && 0 <= b < |cells| ==> (rep[a] == rep[b] <==> Joined(cells, near, a, b))
  {
    forall a, b | 0 <= a < |cells| && 0 <= b < |cells| && Joined(cells, near, a, b)
      ensures rep[a] == rep[b]
    {
      var path: seq<nat> :| Chain(cells, near, path) && path[0] == a && path[|path| - 1] == b;
      ChainKeepsRep(cells, near, index, rep, path);
    }
  }

  lemma {:induction false} ChainKeepsRep<C(!new)>(cells: seq<C>, near: (C, C) -> bool, index: map<C, nat>,
                                           rep: seq<nat>, path: seq<nat>)
    requires Indexes(index, cells, |cells|) && Scanned(cells, near, index, rep, |cells|, {}) && Neighbourly(near)
    requires Chain(cells, near, path)
    ensures rep[path[0]] == rep[path[|path| - 1]]
  {
    if |path| > 1 {
      var a, b := path[0], path[1];
      assert near(cells[path[0]], cells[path[1]]);
      assert rep[a] == rep[index[cells[b]]] && rep[b] == rep[index[cells[b]]];
      assert Chain(cells, near, path[1..]) by {
        forall k | 0 < k < |path[1..]| ensures near(cells[path[1..][k - 1]], cells[path[1..][k]]) {
          assert near(cells[path[k]], cells[path[k + 1]]);
        }
      }
      ChainKeepsRep(cells, near, index, rep, path[1..]);
    }
  }

  // ----- components_2d

  datatype Cell2 = Cell2(s: int, o: int)

  predicate Near2(c: Cell2, d: Cell2) {
    -1 <= d.s - c.s <= 1 && -1 <= d.o - c.o <= 1
  }

  /** A fresh parent list, its dictionary, and the trivial forest it forms. */
  method Singletons<C(!new, ==)>(cells: seq<C>, ghost near: (C, C) -> bool)
    returns (parent: array<nat>, index: map<C, nat>, ghost rep: seq<nat>, ghost rank: seq<nat>)
    requires Neighbourly(near)
    ensures fresh(parent) && parent.Length == |cells| && Forest(parent[..], rep, rank)
    ensures Indexes(index, cells, |cells|) && Scanned(cells, near, index, rep, 0, {})
  {
    index := BuildIndex(cells);
    parent := new nat[|cells|](k => k);
    rep, rank := parent[..], parent[..];
    forall a, b | 0 <= a < |rep| && 0 <= b < |rep| && rep[a] == rep[b] ensures Joined(cells, near, a, b) {
      JoinedStep(cells, near, a, a);
    }
  }

  /** The eight neighbours of row `i`, and the row itself. */
  method ScanRow2(parent: array<nat>, index: map<Cell2, nat>, cells: seq<Cell2>, i: nat, ghost rep: seq<nat>,
                  ghost rank: seq<nat>)
    returns (ghost rep': seq<nat>, ghost rank': seq<nat>)
    requires Forest(parent[..], rep, rank) && Indexes(index, cells, |cells|)
    requires i < |cells| && Scanned(cells, Near2, index, rep, i, {})
    modifies parent
    ensures Forest(parent[..], rep', rank') && Scanned(cells, Near2, index, rep', i + 1, {})
  {
    rep', rank' := rep, rank;
    ghost var seen: set<Cell2> := {};
    var here := cells[i];
    for da := -1 to 2
      invariant Forest(parent[..], rep', rank') && Scanned(cells, Near2, index, rep', i, seen)
      invariant forall c :: Near2(here, c) && c.s - here.s < da ==> c in seen
    {
      for db := -1 to 2
        invariant Forest(parent[..], rep', rank') && Scanned(cells, Near2, index, rep', i, seen)
        invariant forall c :: Near2(here, c) && c.s - here.s < da ==> c in seen
        invariant forall c :: Near2(here, c) && c.s - here.s == da && c.o - here.o < db ==> c in seen
      {
        rep', rank', seen := Step(parent, index, cells, i, Cell2(here.s + da, here.o + db), Near2, rep', rank', seen);
      }
    }
    NextRow(cells, Near2, index, rep', i, seen);
  }

  method Scan2(cells: seq<Cell2>) returns (parent: array<nat>, ghost rep: seq<nat>, ghost rank: seq<nat>)
    ensures fresh(parent) && parent.Length == |cells| && Forest(parent[..], rep, rank)
    ensures forall a, b :: 0 <= a < |cells| && 0 <= b < |cells| ==> (rep[a] == rep[b] <==> Joined(cells, Near2, a, b))
  {
    var index: map<Cell2, nat>;
    parent, index, rep, rank := Singletons(cells, Near2);
    for i := 0 to |cells|
      invariant Forest(parent[..], rep, rank) && Scanned(cells, Near2, index, rep, i, {})
    {
      rep, rank := ScanRow2(parent, index, cells, i, rep, rank);
    }
    ScanIsComplete(cells, Near2, index, rep);
  }

  // ----- Collecting the index lists

  ghost predicate Ascending(s: seq<nat>) {
    forall a, b :: 0 <= a < b < |s| ==> s[a] < s[b]
  }

  ghost predicate Listed(comps: seq<seq<nat>>, x: nat) {
    exists g :: 0 <= g < |comps| && x in comps[g]
  }

  /** `comps` lists the classes of `same` among the rows below `n`, each ascending, in the order
      of their smallest members.  At most one list of lists has this property. */
  ghost predicate Classes(same: (nat, nat) -> bool, n: nat, comps: seq<seq<nat>>) {
    && (forall g :: 0 <= g < |comps| ==> comps[g] != [] && Ascending(comps[g]))
    && (forall g, x :: 0 <= g < |comps| && x in comps[g] ==> x < n)
    && (forall x :: 0 <= x < n ==> Listed(comps, x))
    && (forall g, x, y :: 0 <= g < |comps| && x in comps[g] && 0 <= y < n ==> (y in comps[g] <==> same(x, y)))
    && (forall g, h :: 0 <= g < h < |comps| ==> comps[g][0] < comps[h][0])
  }

  lemma {:induction false} AscendingUnique(s: seq<nat>, t: seq<nat>)
    requires Ascending(s) && Ascending(t) && forall x :: x in s <==> x in t
    ensures s == t
  {
    if s == [] {
      assert forall k :: 0 <= k < |t| ==> t[k] in t;
    } else {
      assert s[0] in s;
      assert s[0] in t && t[0] in t && t[0] in s;
      forall x ensures x in s[1..] <==> x in t[1..] {
        assert x in s[1..] <==> x in s && x != s[0];
        assert x in t[1..] <==> x in t && x != t[0];
      }
      AscendingUnique(s[1..], t[1..]);
    }
  }

  ghost function Leaders(comps: seq<seq<nat>>): (leaders: seq<nat>)
    requires forall g :: 0 <= g < |comps| ==> comps[g] != []
    ensures |leaders| == |comps|
  {
    seq(|comps|, g requires 0 <= g < |comps| => comps[g][0])
  }

  lemma LeaderIsLeast(same: (nat, nat) -> bool, n: nat, comps: seq<seq<nat>>, x: nat)
    requires Classes(same, n, comps)
    ensures x in Leaders(comps) <==> x < n && forall y: nat :: y < x ==> !same(x, y)
  {
    var leaders := Leaders(comps);
    if x in leaders {
      var g :| 0 <= g < |leaders| && leaders[g] == x;
      assert x in comps[g];
    }
    if x < n && forall y: nat :: y < x ==> !same(x, y) {
      assert Listed(comps, x);
      var g :| 0 <= g < |comps| && x in comps[g];
      var k :| 0 <= k < |comps[g]| && comps[g][k] == x;
      var least := comps[g][0];
      assert least in comps[g] && least < n && same(x, least);
      assert leaders[g] == x;
    }
  }

  /** The classes, their order and the order inside them leave no freedom: no union order, and
      no shape of the parent list, can change the result. */
  lemma ClassesUnique(same: (nat, nat) -> bool, n: nat, c: seq<seq<nat>>, d: seq<seq<nat>>)
    requires Classes(same, n, c) && Classes(same, n, d)
    ensures c == d
  {
    forall x: nat ensures x in Leaders(c) <==> x in Leaders(d) {
      LeaderIsLeast(same, n, c, x);
      LeaderIsLeast(same, n, d, x);
    }
    AscendingUnique(Leaders(c), Leaders(d));
    forall g | 0 <= g < |c| ensures c[g] == d[g] {
      assert Leaders(c)[g] == Leaders(d)[g];
      var least := c[g][0];
      assert least in c[g] && least in d[g];
      forall x: nat ensures x in c[g] <==> x in d[g] {
        assert x < n ==> (x in c[g] <==> same(least, x)) && (x in d[g] <==> same(least, x));
      }
      AscendingUnique(c[g], d[g]);
    }
  }

  /** The grouping loop's dictionary: `keys` in insertion order, one list of rows per root. */
  ghost predicate Grouped(rep: seq<nat>, n: nat, keys: seq<nat>, groups: map<nat, seq<nat>>) {
    && n <= |rep|
    && (forall r :: r in keys <==> r in groups)
    && (forall r :: r in groups ==> groups[r] != [] && Ascending(groups[r]))
    && OwnRoots(rep, n, groups)
    && (forall x :: 0 <= x < n ==> rep[x] in groups && x in groups[rep[x]])
    && HeadsAscend(keys, groups)
  }

  ghost predicate OwnRoots(rep: seq<nat>, n: nat, groups: map<nat, seq<nat>>)
    requires n <= |rep|
  {
    forall r, x: nat {:trigger x in groups[r]} :: r in groups && x in groups[r] ==> x < n && rep[x] == r
  }

  ghost predicate Occupied(groups: map<nat, seq<nat>>, r: nat) {
    r in groups && groups[r] != []
  }

  ghost predicate HeadsAscend(keys: seq<nat>, groups: map<nat, seq<nat>>) {
    forall g, h :: 0 <= g < h < |keys| && Occupied(groups, keys[g]) && Occupied(groups, keys[h]) ==>
      groups[keys[g]][0] < groups[keys[h]][0]
  }

  lemma GroupedIsClasses(rep: seq<nat>, keys: seq<nat>, groups: map<nat, seq<nat>>, comps: seq<seq<nat>>,
                         same: (nat, nat) -> bool)
    requires Grouped(rep, |rep|, keys, groups)
    requires |comps| == |keys| && forall g :: 0 <= g < |keys| ==> comps[g] == groups[keys[g]]
    requires forall x, y :: 0 <= x < |rep| && 0 <= y < |rep| ==> (rep[x] == rep[y] <==> same(x, y))
    ensures Classes(same, |rep|, comps)
  {
    forall g | 0 <= g < |comps|
      ensures comps[g] != [] && Ascending(comps[g])
      ensures forall x :: x in comps[g] ==> x < |rep|
      ensures forall x, y :: x in comps[g] && 0 <= y < |rep| ==> (y in comps[g] <==> same(x, y))
    {
      var r := keys[g];
      assert r in keys && r in groups && comps[g] == groups[r];
    }
    forall x | 0 <= x < |rep| ensures Listed(comps, x) {
      assert rep[x] in keys;
      var g :| 0 <= g < |keys| && keys[g] == rep[x];
      assert x in comps[g];
    }
  }

  lemma GroupedStep(rep: seq<nat>, i: nat, keys: seq<nat>, groups: map<nat, seq<nat>>, keys': seq<nat>,
                    groups': map<nat, seq<nat>>)
    requires i < |rep| && Grouped(rep, i, keys, groups)
    requires groups' == groups[rep[i] := (if rep[i] in groups then groups[rep[i]] else []) + [i]]
    requires keys' == if rep[i] in groups then keys else keys + [rep[i]]
    ensures Grouped(rep, i + 1, keys', groups')
  {
    var r := rep[i];
    var was := if r in groups then groups[r] else [];
    forall a | 0 <= a < |was| ensures was[a] < i {
      assert was[a] in groups[r];
    }
    assert Ascending(was) && forall x :: x in groups'[r] <==> x in was || x == i;
    assert forall q :: q in groups && q != r ==> q in groups' && groups'[q] == groups[q];
    AppendAscends(was, i);
    OwnRootsStep(rep, i, groups, groups');
    HeadsStep(rep, i, keys, groups, keys', groups');
    hide Ascending, OwnRoots, HeadsAscend;
    forall x | 0 <= x < i + 1 ensures rep[x] in groups' && x in groups'[rep[x]] {
      if x < i {
        assert rep[x] in groups && x in groups[rep[x]];
      }
    }
  }

  lemma OwnRootsStep(rep: seq<nat>, i: nat, groups: map<nat, seq<nat>>, groups': map<nat, seq<nat>>)
    requires i < |rep| && OwnRoots(rep, i, groups)
    requires groups' == groups[rep[i] := (if rep[i] in groups then groups[rep[i]] else []) + [i]]
    ensures OwnRoots(rep, i + 1, groups')
  {
  }

  lemma AppendAscends(was: seq<nat>, i: nat)
    requires Ascending(was) && forall a :: 0 <= a < |was| ==> was[a] < i
    ensures Ascending(was + [i])
  {
  }

  lemma HeadsStep(rep: seq<nat>, i: nat, keys: seq<nat>, groups: map<nat, seq<nat>>, keys': seq<nat>,
                  groups': map<nat, seq<nat>>)
    requires i < |rep| && Grouped(rep, i, keys, groups)
    requires groups' == groups[rep[i] := (if rep[i] in groups then groups[rep[i]] else []) + [i]]
    requires keys' == if rep[i] in groups then keys else keys + [rep[i]]
    ensures HeadsAscend(keys', groups')
  {
    hide Ascending;
    assert forall g :: 0 <= g < |keys| ==> keys[g] in keys;
    forall g | 0 <= g < |keys| ensures keys[g] in groups && groups'[keys[g]][0] == groups[keys[g]][0] < i {
      assert groups[keys[g]][0] in groups[keys[g]];
    }
  }

  method Collect(parent: array<nat>, ghost rep: seq<nat>, ghost rank: seq<nat>, ghost same: (nat, nat) -> bool)
    returns (comps: seq<seq<nat>>)
    requires Forest(parent[..], rep, rank)
    requires forall x, y :: 0 <= x < |rep| && 0 <= y < |rep| ==> (rep[x] == rep[y] <==> same(x, y))
    modifies parent
    ensures Classes(same, parent.Length, comps)
  {
    var keys: seq<nat>, groups: map<nat, seq<nat>> := [], map[];
    for i := 0 to parent.Length
      invariant Forest(parent[..], rep, rank) && Grouped(rep, i, keys, groups)
    {
      var r := Find(parent, i, rep, rank);
      ghost var keysBefore, groupsBefore := keys, groups;
      if r !in groups {
        keys, groups := keys + [r], groups[r := []];
      }
      groups := groups[r := groups[r] + [i]];
      GroupedStep(rep, i, keysBefore, groupsBefore, keys, groups);
    }
    comps := [];
    for g := 0 to |keys|
      invariant |comps| == g && forall h :: 0 <= h < g ==> comps[h] == groups[keys[h]]
    {
      comps := comps + [groups[keys[g]]];
    }
    GroupedIsClasses(rep, keys, groups, comps, same);
  }

  method Components2d(cells: seq<Cell2>) returns (comps: seq<seq<nat>>)
    ensures Classes((x: nat, y: nat) => Joined(cells, Near2, x, y), |cells|, comps)
  {
    var parent, rep, rank := Scan2(cells);
    comps := Collect(parent, rep, rank, (x: nat, y: nat) => Joined(cells, Near2, x, y));
  }

  // ----- components: sizes in three dimensions

  datatype Cell3 = Cell3(s: int, o: int, c: int)

  predicate Near3(c: Cell3, d: Cell3) {
    -1 <= d.s - c.s <= 1 && -1 <= d.o - c.o <= 1 && -1 <= d.c - c.c <= 1
  }

  /** The twenty-six neighbours of row `i`, and the row itself. */
  method ScanRow3(parent: array<nat>, index: map<Cell3, nat>, cells: seq<Cell3>, i: nat, ghost rep: seq<nat>,
                  ghost rank: seq<nat>)
    returns (ghost rep': seq<nat>, ghost rank': seq<nat>)
    requires Forest(parent[..], rep, rank) && Indexes(index, cells, |cells|)
    requires i < |cells| && Scanned(cells, Near3, index, rep, i, {})
    modifies parent
    ensures Forest(parent[..], rep', rank') && Scanned(cells, Near3, index, rep', i + 1, {})
  {
    rep', rank' := rep, rank;
    ghost var seen: set<Cell3> := {};
    var here := cells[i];
    for ds := -1 to 2
      invariant Forest(parent[..], rep', rank') && Scanned(cells, Near3, index, rep', i, seen)
      invariant forall c :: Near3(here, c) && c.s - here.s < ds ==> c in seen
    {
      for do := -1 to 2
        invariant Forest(parent[..], rep', rank') && Scanned(cells, Near3, index, rep', i, seen)
        invariant forall c :: Near3(here, c) && c.s - here.s < ds ==> c in seen
        invariant forall c :: Near3(here, c) && c.s - here.s == ds && c.o - here.o < do ==> c in seen
      {
        for dc := -1 to 2
          invariant Forest(parent[..], rep', rank') && Scanned(cells, Near3, index, rep', i, seen)
          invariant forall c :: Near3(here, c) && c.s - here.s < ds ==> c in seen
          invariant forall c :: Near3(here, c) && c.s - here.s == ds && c.o - here.o < do ==> c in seen
          invariant forall c :: Near3(here, c) && c.s - here.s == ds && c.o - here.o == do && c.c - here.c < dc ==>
            c in seen
        {
          var cell := Cell3(here.s + ds, here.o + do, here.c + dc);
          rep', rank', seen := Step(parent, index, cells, i, cell, Near3, rep', rank', seen);
        }
      }
    }
    NextRow(cells, Near3, index, rep', i, seen);
  }

  method Scan3(cells: seq<Cell3>) returns (parent: array<nat>, ghost rep: seq<nat>, ghost rank: seq<nat>)
    ensures fresh(parent) && parent.Length == |cells| && Forest(parent[..], rep, rank)
    ensures forall a, b :: 0 <= a < |cells| && 0 <= b < |cells| ==> (rep[a] == rep[b] <==> Joined(cells, Near3, a, b))
  {
    var index: map<Cell3, nat>;
    parent, index, rep, rank := Singletons(cells, Near3);
    for i := 0 to |cells|
      invariant Forest(parent[..], rep, rank) && Scanned(cells, Near3, index, rep, i, {})
    {
      rep, rank := ScanRow3(parent, index, cells, i, rep, rank);
    }
    ScanIsComplete(cells, Near3, index, rep);
  }

  /** The rows below `n` whose root is `r`. */
  ghost function Under(rep: seq<nat>, r: nat, n: nat): set<nat>
    requires n <= |rep|
  {
    set k | 0 <= k < n && rep[k] == r
  }

  lemma UnderStep(rep: seq<nat>, r: nat, n: nat)
    requires n < |rep|
    ensures |Under(rep, r, n + 1)| == |Under(rep, r, n)| + if rep[n] == r then 1 else 0
  {
    if rep[n] == r {
      assert Under(rep, r, n + 1) == Under(rep, r, n) + {n};
    } else {
      assert Under(rep, r, n + 1) == Under(rep, r, n);
    }
  }

  /** `value_counts`: how often every root occurs. */
  method CountRoots(roots: seq<nat>) returns (counts: map<nat, nat>)
    ensures forall k :: 0 <= k < |roots| ==> roots[k] in counts && counts[roots[k]] == |Under(roots, roots[k], |roots|)|
  {
    counts := map[];
    for i := 0 to |roots|
      invariant forall k :: 0 <= k < i ==> roots[k] in counts
      invariant forall r :: (if r in counts then counts[r] else 0) == |Under(roots, r, i)|
    {
      forall r ensures |Under(roots, r, i + 1)| == |Under(roots, r, i)| + if roots[i] == r then 1 else 0 {
        UnderStep(roots, r, i);
      }
      counts := counts[roots[i] := (if roots[i] in counts then counts[roots[i]] else 0) + 1];
    }
  }

  method Components3d(cells: seq<Cell3>) returns (sizes: seq<nat>)
    ensures |sizes| == |cells|
    ensures forall i :: 0 <= i < |cells| ==> sizes[i] == |set j | 0 <= j < |cells| && Joined(cells, Near3, i, j)|
  {
    var parent, rep, rank := Scan3(cells);
    var roots: seq<nat> := [];
    for i := 0 to |cells|
      invariant Forest(parent[..], rep, rank) && roots == rep[..i]
    {
      var root := Find(parent, i, rep, rank);
      roots := roots + [root];
    }
    assert roots == rep;
    var counts := CountRoots(roots);
    sizes := seq(|cells|, i requires 0 <= i < |cells| => counts[roots[i]]);
    forall i | 0 <= i < |cells|
      ensures sizes[i] == |set j | 0 <= j < |cells| && Joined(cells, Near3, i, j)|
    {
      assert Under(rep, rep[i], |cells|) == set j | 0 <= j < |cells| && Joined(cells, Near3, i, j);
    }
  }
}
