/** The streaming grouper of an id-ordered cursor: one group per expected id, empty ids included. */
module GroupStream {
  import opened Sorting
  import opened Wrappers

  datatype Row<T> = Row(id: int, rest: T)

  datatype StreamError = UnexpectedResultId | ResultGroupOrderInvalid | ResultReopened

  // ----- Reference meaning

  function Flatten<X>(chunks: seq<seq<X>>): seq<X> {
    if chunks == [] then [] else Flatten(chunks[..|chunks| - 1]) + chunks[|chunks| - 1]
  }

  /** The rows of one id, in cursor order. */
  function RowsOf<T>(rows: seq<Row<T>>, id: int): seq<T> {
    if rows == [] then []
    else RowsOf(rows[..|rows| - 1], id) + if rows[|rows| - 1].id == id then [rows[|rows| - 1].rest] else []
  }

  /** One group per id, in the order of `ids`. */
  function Groups<T>(ids: seq<int>, rows: seq<Row<T>>): (groups: seq<(int, seq<T>)>)
    ensures |groups| == |ids|
  {
    seq(|ids|, k requires 0 <= k < |ids| => (ids[k], RowsOf(rows, ids[k])))
  }

  /** Position `k` is in order and expected. */
  predicate Fits<T>(rows: seq<Row<T>>, expected: set<int>, k: nat)
    requires k < |rows|
  {
    rows[k].id in expected && (k > 0 ==> rows[k - 1].id <= rows[k].id)
  }

  predicate Clean<T>(rows: seq<Row<T>>, expected: set<int>) {
    forall k :: 0 <= k < |rows| ==> Fits(rows, expected, k)
  }

  function HasId<T>(id: int): Row<T> -> bool { (row: Row<T>) => row.id == id }

  lemma {:induction false} RowsAtPositions<T>(rows: seq<Row<T>>, id: int)
    ensures |RowsOf(rows, id)| == |Positions(rows, HasId(id))|
    ensures forall i :: 0 <= i < |RowsOf(rows, id)| ==>
      Positions(rows, HasId(id))[i] < |rows| && RowsOf(rows, id)[i] == rows[Positions(rows, HasId(id))[i]].rest
  {
    if rows != [] {
      RowsAtPositions(rows[..|rows| - 1], id);
    }
  }

  /** The group of an id holds the rest of each of its rows, once and in cursor order. */
  lemma RowsOfMeans<T>(rows: seq<Row<T>>, id: int) returns (at: seq<nat>)
    ensures |at| == |RowsOf(rows, id)| && Ascending(at)
    ensures forall k: nat :: k in at <==> k < |rows| && rows[k].id == id
    ensures forall i :: 0 <= i < |at| ==> at[i] < |rows| && RowsOf(rows, id)[i] == rows[at[i]].rest
  {
    at := Positions(rows, HasId(id));
    RowsAtPositions(rows, id);
    PositionsAre(rows, HasId(id));
    PositionsAscend(rows, HasId(id));
    hide RowsOf, Positions;
  }

  /** A cursor is clean when every id is expected and no earlier id is larger. */
  lemma CleanMeans<T>(rows: seq<Row<T>>, expected: set<int>)
    ensures (Clean(rows, expected) <==>
        && (forall k :: 0 <= k < |rows| ==> rows[k].id in expected)
        && forall j, k :: 0 <= j <= k < |rows| ==> rows[j].id <= rows[k].id)
  {
    if Clean(rows, expected) {
      forall k | 0 <= k < |rows| ensures rows[k].id in expected {
        assert Fits(rows, expected, k);
      }
      forall j, k | 0 <= j <= k < |rows| ensures rows[j].id <= rows[k].id {
        CleanAscends(rows, expected, j, k);
      }
    }
  }

  lemma {:induction false} CleanAscends<T>(rows: seq<Row<T>>, expected: set<int>, j: nat, k: nat)
    requires Clean(rows, expected) && j <= k < |rows|
    ensures rows[j].id <= rows[k].id
  {
    if j < k {
      CleanAscends(rows, expected, j, k - 1);
      assert Fits(rows, expected, k);
    }
  }

  /** Flattening joins the chunks of two lists, and of one chunk is the chunk. */
  lemma {:induction false} FlattenJoins<X>(chunks: seq<seq<X>>, more: seq<seq<X>>, chunk: seq<X>)
    ensures Flatten(chunks + more) == Flatten(chunks) + Flatten(more)
    ensures Flatten([chunk]) == chunk
  {
    assert [chunk][..0] == [];
    if more == [] {
      assert chunks + more == chunks;
    } else {
      var n := |more| - 1;
      FlattenJoins(chunks, more[..n], chunk);
      assert (chunks + more)[..|chunks| + n] == chunks + more[..n];
    }
  }

  lemma RowsOfSnoc<T>(rows: seq<Row<T>>, row: Row<T>, id: int)
    ensures RowsOf(rows + [row], id) == if row.id == id then RowsOf(rows, id) + [row.rest] else RowsOf(rows, id)
  {
    assert (rows + [row])[..|rows|] == rows;
  }

  lemma CleanPrefix<T>(rows: seq<Row<T>>, expected: set<int>)
    requires Clean(rows, expected) && rows != []
    ensures Clean(rows[..|rows| - 1], expected)
  {
    var most := rows[..|rows| - 1];
    forall k | 0 <= k < |most| ensures Fits(most, expected, k) {
      assert Fits(rows, expected, k) && most[k] == rows[k];
      if k > 0 {
        assert most[k - 1] == rows[k - 1];
      }
    }
  }

  lemma {:induction false} NoRowsAbove<T>(rows: seq<Row<T>>, expected: set<int>, id: int)
    requires Clean(rows, expected) && (rows != [] ==> rows[|rows| - 1].id < id)
    ensures RowsOf(rows, id) == []
  {
    if rows != [] {
      var most := rows[..|rows| - 1];
      assert Fits(rows, expected, |rows| - 1);
      CleanPrefix(rows, expected);
      NoRowsAbove(most, expected, id);
    }
  }

  lemma GroupsIgnore<T>(ids: seq<int>, rows: seq<Row<T>>, row: Row<T>)
    requires row.id !in ids
    ensures Groups(ids, rows + [row]) == Groups(ids, rows)
  {
    forall k | 0 <= k < |ids| ensures Groups(ids, rows + [row])[k] == Groups(ids, rows)[k] {
      assert ids[k] in ids;
      RowsOfSnoc(rows, row, ids[k]);
    }
  }

  lemma GroupsSnoc<T>(ids: seq<int>, k: nat, rows: seq<Row<T>>)
    requires k < |ids|
    ensures Groups(ids[..k + 1], rows) == Groups(ids[..k], rows) + [(ids[k], RowsOf(rows, ids[k]))]
  {
  }

  lemma CleanSnoc<T>(rows: seq<Row<T>>, row: Row<T>, expected: set<int>)
    requires Clean(rows, expected) && row.id in expected && (rows != [] ==> rows[|rows| - 1].id <= row.id)
    ensures Clean(rows + [row], expected)
  {
    forall k | 0 <= k < |rows| + 1 ensures Fits(rows + [row], expected, k) {
      assert k < |rows| ==> Fits(rows, expected, k);
    }
  }

  // ----- The generator

  /** The generator after `done` rows: everything below the open id has been yielded. */
  ghost predicate Open<T>(done: seq<Row<T>>, expected: set<int>, ordered: seq<int>,
                          current: Option<int>, group: seq<T>, seen: set<int>, position: nat, out: seq<(int, seq<T>)>)
  {
    && Clean(done, expected)
    && position <= |ordered|
    && out == Groups(ordered[..position], done)
    && seen == (set k | 0 <= k < position :: ordered[k])
    && (done == [] ==> current == None && group == [] && position == 0)
    && (done != [] ==>
          && position < |ordered|
          && current == Some(done[|done| - 1].id)
          && ordered[position] == current.value
          && group == RowsOf(done, current.value))
  }

  ghost predicate IsSorted(ordered: seq<int>, expected: set<int>) {
    Increasing(ordered) && forall id :: id in ordered <==> id in expected
  }

  /** Where `id` is in the sorted ids. */
  ghost function IndexOf(ordered: seq<int>, id: int): (k: nat)
    requires id in ordered
    ensures k < |ordered| && ordered[k] == id
  {
    var k :| 0 <= k < |ordered| && ordered[k] == id;
    k
  }

  /** Yield the expected ids between the open one and `rid`: none of them has rows. */
  method YieldMissing<T>(ordered: seq<int>, rid: int, seen: set<int>, position: nat, out: seq<(int, seq<T>)>,
                         ghost done: seq<Row<T>>, ghost expected: set<int>)
    returns (seen': set<int>, position': nat, out': seq<(int, seq<T>)>)
    requires IsSorted(ordered, expected) && rid in expected && Clean(done, expected)
    requires position <= IndexOf(ordered, rid) && out == Groups(ordered[..position], done)
    requires seen == set k | 0 <= k < position :: ordered[k]
    requires done != [] && position < |ordered| && ordered[position] < rid ==> done[|done| - 1].id < ordered[position]
    ensures position' == IndexOf(ordered, rid) && out' == Groups(ordered[..position'], done)
    ensures seen' == set k | 0 <= k < position' :: ordered[k]
  {
    seen', position', out' := seen, position, out;
    while position' < |ordered| && ordered[position'] < rid
      invariant position <= position' <= IndexOf(ordered, rid)
      invariant out' == Groups(ordered[..position'], done)
      invariant seen' == set k | 0 <= k < position' :: ordered[k]
    {
      var missing := ordered[position'];
      assert missing !in seen';
      if missing !in seen' {
        NoRowsAbove(done, expected, missing);
        GroupsSnoc(ordered, position', done);
        seen', out' := seen' + {missing}, out' + [(missing, [])];
      }
      position' := position' + 1;
    }
  }

  /** How far a faulty cursor is grouped before the generator raises. */
  ghost predicate StopsAt<T>(rows: seq<Row<T>>, expected: set<int>, ordered: seq<int>, p: nat,
                             out: seq<(int, seq<T>)>, error: StreamError)
  {
    && p < |rows|
    && Clean(rows[..p], expected)
    && !Fits(rows, expected, p)
    && error == (if rows[p].id !in expected then UnexpectedResultId else ResultGroupOrderInvalid)
    && (p == 0 ==> out == [])
    && (p > 0 ==> rows[p - 1].id in ordered && out == Groups(ordered[..IndexOf(ordered, rows[p - 1].id)], rows[..p]))
  }

  /** One row of the cursor. */
  method Take<T>(row: Row<T>, expected: set<int>, ordered: seq<int>, current: Option<int>, group: seq<T>,
                 seen: set<int>, position: nat, out: seq<(int, seq<T>)>, ghost done: seq<Row<T>>)
    returns (current': Option<int>, group': seq<T>, seen': set<int>, position': nat, out': seq<(int, seq<T>)>,
             error: Option<StreamError>)
    requires IsSorted(ordered, expected) && Open(done, expected, ordered, current, group, seen, position, out)
    ensures error == None ==> Open(done + [row], expected, ordered, current', group', seen', position', out')
    ensures error.Some? ==> StopsAt(done + [row], expected, ordered, |done|, out', error.value)
  {
    current', group', seen', position', out' := current, group, seen, position, out;
    var rid := row.id;
    assert (done + [row])[..|done|] == done;
    if rid !in expected {
      error := Some(UnexpectedResultId);
      return;
    }
    if current.Some? && rid != current.value {
      if rid <= current.value {
        error := Some(ResultGroupOrderInvalid);
        return;
      }
      GroupsSnoc(ordered, position, done);
      seen', out', group', position' := seen + {current.value}, out + [(current.value, group)], [], position + 1;
    }
    seen', position', out' := YieldMissing(ordered, rid, seen', position', out', done, expected);
    assert rid !in seen';
    if rid in seen' {
      error := Some(ResultReopened);
      return;
    }
    current', group', error := Some(rid), group' + [row.rest], None;
    CleanSnoc(done, row, expected);
    GroupsIgnore(ordered[..position'], done, row);
    RowsOfSnoc(done, row, rid);
    if done == [] || done[|done| - 1].id != rid {
      NoRowsAbove(done, expected, rid);
    }
  }

  lemma FlattenSnoc<X>(chunks: seq<seq<X>>, k: nat)
    requires k < |chunks|
    ensures Flatten(chunks[..k + 1]) == Flatten(chunks[..k]) + chunks[k]
  {
    assert chunks[..k + 1][..k] == chunks[..k];
  }

  lemma {:induction false} FlattenPrefix<X>(chunks: seq<seq<X>>, k: nat)
    requires k <= |chunks|
    ensures Flatten(chunks[..k]) <= Flatten(chunks)
    decreases |chunks| - k
  {
    if k < |chunks| {
      FlattenSnoc(chunks, k);
      FlattenPrefix(chunks, k + 1);
    } else {
      assert chunks[..k] == chunks;
    }
  }

  /** The rows of one chunk. */
  method TakeChunk<T>(chunk: seq<Row<T>>, expected: set<int>, ordered: seq<int>, current: Option<int>, group: seq<T>,
                      seen: set<int>, position: nat, out: seq<(int, seq<T>)>, ghost done: seq<Row<T>>)
    returns (current': Option<int>, group': seq<T>, seen': set<int>, position': nat, out': seq<(int, seq<T>)>,
             error: Option<StreamError>, ghost fault: nat)
    requires IsSorted(ordered, expected) && Open(done, expected, ordered, current, group, seen, position, out)
    ensures error == None ==> Open(done + chunk, expected, ordered, current', group', seen', position', out')
    ensures error.Some? ==> StopsAt(done + chunk, expected, ordered, fault, out', error.value)
  {
    hide Open, StopsAt;
    current', group', seen', position', out', error, fault := current, group, seen, position, out, None, 0;
    ghost var taken := done;
    for r := 0 to |chunk|
      invariant taken == done + chunk[..r] && error == None
      invariant Open(taken, expected, ordered, current', group', seen', position', out')
    {
      current', group', seen', position', out', error := Take(chunk[r], expected, ordered, current', group', seen',
          position', out', taken);
      if error.Some? {
        fault := |taken|;
        FaultExtends(taken + [chunk[r]], done + chunk, expected, ordered, fault, out', error.value);
        return;
      }
      taken := taken + [chunk[r]];
    }
    assert taken == done + chunk;
  }

  /** After the cursor: the open group, then every expected id that was never seen. */
  method YieldRest<T>(ordered: seq<int>, current: Option<int>, group: seq<T>, seen: set<int>, position: nat,
                      out: seq<(int, seq<T>)>,
                      ghost done: seq<Row<T>>, ghost expected: set<int>)
    returns (out': seq<(int, seq<T>)>)
    requires IsSorted(ordered, expected) && Open(done, expected, ordered, current, group, seen, position, out)
    ensures out' == Groups(ordered, done)
  {
    var seen';
    seen', out' := seen, out;
    ghost var from := position;
    if current.Some? {
      GroupsSnoc(ordered, position, done);
      seen', out' := seen' + {current.value}, out' + [(current.value, group)];
      from := position + 1;
    }
    for k := 0 to |ordered|
      invariant out' == Groups(ordered[..if k < from then from else k], done)
    {
      if ordered[k] !in seen' {
        assert k >= from;
        NoRowsAbove(done, expected, ordered[k]);
        GroupsSnoc(ordered, k, done);
        out' := out' + [(ordered[k], [])];
      } else {
        assert k < from;
      }
    }
    assert ordered[..|ordered|] == ordered;
  }

  /** The whole generator, run to its end or to its first error: `out` is everything it yielded. */
  method GroupStream<T>(chunks: seq<seq<Row<T>>>, expected: set<int>)
    returns (out: seq<(int, seq<T>)>, error: Option<StreamError>, ghost ordered: seq<int>, ghost fault: nat)
    ensures IsSorted(ordered, expected)
    ensures error == None <==> Clean(Flatten(chunks), expected)
    ensures error == None ==> out == Groups(ordered, Flatten(chunks))
    ensures error.Some? ==> StopsAt(Flatten(chunks), expected, ordered, fault, out, error.value)
    ensures error != Some(ResultReopened)
  {
    fault, out := 0, [];
    var sorted := SortedSet(expected);
    ordered := sorted;
    var current: Option<int>, group: seq<T>, seen: set<int>, position := None, [], {}, 0;
    for c := 0 to |chunks|
      invariant Open(Flatten(chunks[..c]), expected, sorted, current, group, seen, position, out)
    {
      FlattenSnoc(chunks, c);
      current, group, seen, position, out, error, fault :=
        TakeChunk(chunks[c], expected, sorted, current, group, seen, position, out, Flatten(chunks[..c]));
      if error.Some? {
        FlattenPrefix(chunks, c + 1);
        FaultExtends(Flatten(chunks[..c + 1]), Flatten(chunks), expected, ordered, fault, out, error.value);
        return;
      }
    }
    assert chunks[..|chunks|] == chunks;
    out := YieldRest(sorted, current, group, seen, position, out, Flatten(chunks), expected);
    error := None;
  }

  lemma FaultExtends<T>(part: seq<Row<T>>, rows: seq<Row<T>>, expected: set<int>, ordered: seq<int>, p: nat,
                        out: seq<(int, seq<T>)>, error: StreamError)
    requires part <= rows && StopsAt(part, expected, ordered, p, out, error)
    ensures StopsAt(rows, expected, ordered, p, out, error)
  {
    assert part[..p] == rows[..p];
    assert p > 0 ==> part[p - 1] == rows[p - 1];
  }

  // ----- What follows for callers

  lemma CleanPrefixFits<T>(rows: seq<Row<T>>, expected: set<int>, n: nat)
    requires n <= |rows| && Clean(rows[..n], expected)
    ensures forall k :: 0 <= k < n ==> Fits(rows, expected, k)
  {
    var part := rows[..n];
    forall k | 0 <= k < n ensures Fits(rows, expected, k) {
      assert Fits(part, expected, k) && part[k] == rows[k];
      assert k > 0 ==> part[k - 1] == rows[k - 1];
    }
  }

  /** Chunk boundaries do not move the fault: a faulty cursor stops at the same row with the same groups,
      however it is cut.  What a clean cursor yields is a function of the rows alone, by `GroupStream`. */
  lemma ChunkIndependence<T>(a: seq<seq<Row<T>>>, b: seq<seq<Row<T>>>, expected: set<int>, ordered: seq<int>,
                             p: nat, q: nat, out: seq<(int, seq<T>)>, out': seq<(int, seq<T>)>, e: StreamError,
                             e': StreamError)
    requires Flatten(a) == Flatten(b)
    requires StopsAt(Flatten(a), expected, ordered, p, out, e) && StopsAt(Flatten(b), expected, ordered, q, out', e')
    ensures p == q && e == e' && out == out'
  {
    var rows := Flatten(a);
    CleanPrefixFits(rows, expected, p);
    CleanPrefixFits(rows, expected, q);
  }

  /** Nothing is lost or invented: the groups of a clean cursor hold its rows, all of them. */
  lemma {:induction false} RowsAreConserved<T>(rows: seq<Row<T>>, expected: set<int>, ordered: seq<int>)
    requires IsSorted(ordered, expected) && Clean(rows, expected)
    ensures TotalSize(Groups(ordered, rows)) == |rows|
  {
    if rows == [] {
      EmptyGroups(ordered, rows);
    } else {
      var most, last := rows[..|rows| - 1], rows[|rows| - 1];
      CleanPrefix(rows, expected);
      RowsAreConserved(most, expected, ordered);
      assert Fits(rows, expected, |rows| - 1);
      assert rows == most + [last];
      OneMoreRow(ordered, |ordered|, most, last);
      assert ordered[..|ordered|] == ordered;
    }
  }

  ghost function TotalSize<T>(groups: seq<(int, seq<T>)>): nat {
    if groups == [] then 0 else TotalSize(groups[..|groups| - 1]) + |groups[|groups| - 1].1|
  }

  lemma {:induction false} EmptyGroups<T>(ids: seq<int>, rows: seq<Row<T>>)
    requires rows == []
    ensures TotalSize(Groups(ids, rows)) == 0
  {
    if ids != [] {
      GroupsSnoc(ids, |ids| - 1, rows);
      assert ids[..|ids|] == ids;
      EmptyGroups(ids[..|ids| - 1], rows);
    }
  }

  lemma TotalSnoc<T>(groups: seq<(int, seq<T>)>, g: (int, seq<T>))
    ensures TotalSize(groups + [g]) == TotalSize(groups) + |g.1|
  {
    assert (groups + [g])[..|groups|] == groups;
  }

  lemma {:induction false} OneMoreRow<T>(ids: seq<int>, n: nat, rows: seq<Row<T>>, row: Row<T>)
    requires Increasing(ids) && n <= |ids|
    ensures TotalSize(Groups(ids[..n], rows + [row]))
         == TotalSize(Groups(ids[..n], rows)) + if row.id in ids[..n] then 1 else 0
    decreases n
  {
    if n > 0 {
      var id := ids[n - 1];
      assert ids[..n] == ids[..n - 1] + [id] && id !in ids[..n - 1];
      hide Increasing, Groups, RowsOf, TotalSize;
      OneMoreRow(ids, n - 1, rows, row);
      GroupsSnoc(ids, n - 1, rows);
      GroupsSnoc(ids, n - 1, rows + [row]);
      RowsOfSnoc(rows, row, id);
      TotalSnoc(Groups(ids[..n - 1], rows), (id, RowsOf(rows, id)));
      TotalSnoc(Groups(ids[..n - 1], rows + [row]), (id, RowsOf(rows + [row], id)));
    }
  }
}
