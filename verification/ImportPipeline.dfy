/** The v4 importer: workers parse reports in any order, one writer stores them in a batched
    transaction, and a checklist says which HTML files may be deleted. */
module ImportPipeline {
  import opened ImportWindow
  import opened Wrappers

  // ----- What a worker hands back

  /** A SHA-256 digest, or the marker that stands in for one when a file could not be read. */
  datatype Sha = Sha(hex: string) | Unreadable

  /** `point_id|grid_id`: neither half contains the separator, so the pair is the key. */
  datatype Key = Key(point: string, grid: string)

  /** `RP_` and the first 24 digits of the hash; distinct hashes are taken to differ there. */
  datatype ReportId = ReportId(of: Sha)

  datatype Record = Record(hash: Sha, point: string, grid: string, rawActions: nat, equitySamples: nat,
      walletChanges: nat)

  datatype Reason = Blank | AlreadyImported | Duplicate(holder: ReportId) | UnknownWorkerError
    | WorkerFailed(text: string) | Message(text: string)

  /** A parse outcome: the error class and message are absent, or present and possibly empty. */
  datatype Outcome = Outcome(file: string, sha: Sha, record: Option<Record>, errorClass: Option<string>,
      message: Option<Reason>)

  datatype Delivery = Returned(outcome: Outcome) | Raised(text: string)

  function CanonicalKey(r: Record): Key {
    Key(r.point, r.grid)
  }

  /** A future that raises still yields an outcome for its own file. */
  function OutcomeOf(file: string, d: Delivery): Outcome {
    match d
    case Returned(outcome) => outcome
    case Raised(text) => Outcome(file, Unreadable, None, Some("WORKER_FAILURE"), Some(WorkerFailed(text)))
  }

  predicate Good(o: Outcome) {
    (o.errorClass == None || o.errorClass.value == []) && o.record.Some?
  }

  /** An absent or empty message is replaced by a fixed one. */
  function ReasonOf(o: Outcome): Reason {
    if o.message == None || o.message == Some(Message([])) then UnknownWorkerError else o.message.value
  }

  // ----- Reference meaning of storing outcomes one after another

  type Reports = map<Sha, Record>

  datatype Status = Imported | Skipped | Quarantined

  datatype Row = Row(file: string, sha: Sha, status: Status, reportId: Option<ReportId>,
                     counts: Option<(nat, nat, nat)>, safeToDelete: bool, reason: Reason)

  function KeysOf(reports: Reports): set<Key> {
    set h | h in reports :: CanonicalKey(reports[h])
  }

  ghost predicate SameKey(reports: Reports, h: Sha, k: Sha) {
    h in reports && k in reports && CanonicalKey(reports[h]) == CanonicalKey(reports[k])
  }

  /** The table's UNIQUE constraints: rows are filed under their hash and no two share a key. */
  ghost predicate Unique(reports: Reports) {
    && (forall h :: h in reports ==> reports[h].hash == h)
    && (forall h, k :: SameKey(reports, h, k) ==> h == k)
  }

  function Judge(reports: Reports, o: Outcome): Status {
    if !Good(o) then Quarantined
    else if o.record.value.hash in reports then Skipped
    else if CanonicalKey(o.record.value) in KeysOf(reports) then Quarantined
    else Imported
  }

  function Absorb(reports: Reports, o: Outcome): Reports {
    if Judge(reports, o) == Imported then reports[o.record.value.hash := o.record.value] else reports
  }

  function AbsorbAll(reports: Reports, outs: seq<Outcome>): Reports {
    if outs == [] then reports else Absorb(AbsorbAll(reports, outs[..|outs| - 1]), outs[|outs| - 1])
  }

  function Tally(reports: Reports, outs: seq<Outcome>, status: Status): nat {
    if outs == [] then 0
    else Tally(reports, outs[..|outs| - 1], status)
         + if Judge(AbsorbAll(reports, outs[..|outs| - 1]), outs[|outs| - 1]) == status then 1 else 0
  }

  /** The stored report that holds a key. */
  ghost function Holder(reports: Reports, key: Key): (hash: Sha)
    requires key in KeysOf(reports)
    ensures hash in reports && CanonicalKey(reports[hash]) == key
  {
    var hash :| hash in reports && CanonicalKey(reports[hash]) == key;
    hash
  }

  /** The checklist row of one outcome: a conflict names the report that already holds the key,
      and the figures of a kept file are those of the report stored under its hash. */
  ghost function RowFor(reports: Reports, o: Outcome): Row {
    match Judge(reports, o)
    case Imported => StoredRow(o.file, Imported, o.record.value, Blank)
    case Skipped => StoredRow(o.file, Skipped, reports[o.record.value.hash], AlreadyImported)
    case Quarantined =>
      if Good(o) then RejectedRow(o.file, o.record.value.hash,
          Duplicate(ReportId(Holder(reports, CanonicalKey(o.record.value)))))
      else RejectedRow(o.file, o.sha, ReasonOf(o))
  }

  function StoredRow(file: string, status: Status, r: Record, reason: Reason): Row {
    Row(file, r.hash, status, Some(ReportId(r.hash)), Some((r.rawActions, r.equitySamples, r.walletChanges)), true,
        reason)
  }

  function RejectedRow(file: string, sha: Sha, reason: Reason): Row {
    Row(file, sha, Quarantined, None, None, false, reason)
  }

  ghost function RowsFor(reports: Reports, outs: seq<Outcome>): (rows: seq<Row>)
    ensures |rows| == |outs|
  {
    if outs == [] then []
    else RowsFor(reports, outs[..|outs| - 1]) + [RowFor(AbsorbAll(reports, outs[..|outs| - 1]), outs[|outs| - 1])]
  }

  /** What the quarantine list holds of a checklist. */
  ghost function RejectsOf(rows: seq<Row>): seq<(string, Sha, Reason)> {
    if rows == [] then [] else RejectsOf(rows[..|rows| - 1]) + RejectOf(rows[|rows| - 1])
  }

  function RejectOf(row: Row): seq<(string, Sha, Reason)> {
    if row.status == Quarantined then [(row.file, row.sha, row.reason)] else []
  }

  lemma RejectsSnoc(rows: seq<Row>, row: Row)
    ensures RejectsOf(rows + [row]) == RejectsOf(rows) + RejectOf(row)
  {
    assert (rows + [row])[..|rows|] == rows;
  }

  lemma AbsorbSnoc(reports: Reports, outs: seq<Outcome>, o: Outcome)
    ensures AbsorbAll(reports, outs + [o]) == Absorb(AbsorbAll(reports, outs), o)
    ensures forall s :: Tally(reports, outs + [o], s) == Tally(reports, outs, s) + if Judge(AbsorbAll(reports, outs), o)
      == s then 1 else 0
    ensures RowsFor(reports, outs + [o]) == RowsFor(reports, outs) + [RowFor(AbsorbAll(reports, outs), o)]
  {
    assert (outs + [o])[..|outs|] == outs;
  }

  /** Nothing stored is ever lost or replaced by a later outcome. */
  lemma {:induction false} AbsorbAllGrows(reports: Reports, outs: seq<Outcome>, k: nat)
    requires k <= |outs|
    ensures forall h :: h in AbsorbAll(reports, outs[..k]) ==>
              h in AbsorbAll(reports, outs) && AbsorbAll(reports, outs)[h] == AbsorbAll(reports, outs[..k])[h]
    decreases |outs|
  {
    if k == |outs| {
      assert outs[..k] == outs;
    } else {
      assert outs[..|outs| - 1][..k] == outs[..k];
      AbsorbAllGrows(reports, outs[..|outs| - 1], k);
    }
  }

  lemma AbsorbUnique(reports: Reports, o: Outcome)
    requires Unique(reports)
    ensures Unique(Absorb(reports, o))
  {
    var after := Absorb(reports, o);
    forall h, k | SameKey(after, h, k) ensures h == k {
      if h in reports && k in reports && Judge(reports, o) != Imported {
        assert SameKey(reports, h, k);
      } else if h in reports && k in reports && h != o.record.value.hash && k != o.record.value.hash {
        assert SameKey(reports, h, k);
      }
    }
  }

  lemma {:induction false} AbsorbAllUnique(reports: Reports, outs: seq<Outcome>)
    requires Unique(reports)
    ensures Unique(AbsorbAll(reports, outs))
  {
    if outs != [] {
      AbsorbAllUnique(reports, outs[..|outs| - 1]);
      AbsorbUnique(AbsorbAll(reports, outs[..|outs| - 1]), outs[|outs| - 1]);
    }
  }

  /** Every row marked safe to delete names a hash that is stored at the end, and a file gets a
      row marked safe exactly when it was imported or skipped. */
  lemma LastRowIsSafe(before: Reports, o: Outcome)
    requires Unique(before)
    ensures RowFor(before, o).file == o.file && (RowFor(before, o).safeToDelete <==> Judge(before, o) != Quarantined)
    ensures RowFor(before, o).safeToDelete ==> RowFor(before, o).sha in Absorb(before, o)
    ensures forall h :: h in before ==> h in Absorb(before, o)
  {
  }

  lemma {:induction false} SafeRowsAreStored(reports: Reports, outs: seq<Outcome>)
    requires Unique(reports)
    ensures forall row :: row in RowsFor(reports, outs) && row.safeToDelete ==> row.sha in AbsorbAll(reports, outs)
    ensures forall k :: 0 <= k < |outs| ==>
              var row := RowsFor(reports, outs)[k];
              row.file == outs[k].file && (row.safeToDelete <==>
                Judge(AbsorbAll(reports, outs[..k]), outs[k]) != Quarantined)
  {
    if outs != [] {
      var most, last := outs[..|outs| - 1], outs[|outs| - 1];
      SafeRowsAreStored(reports, most);
      AbsorbAllUnique(reports, most);
      var before := AbsorbAll(reports, most);
      var rows, earlier := RowsFor(reports, outs), RowsFor(reports, most);
      assert rows == earlier + [RowFor(before, last)] && AbsorbAll(reports, outs) == Absorb(before, last);
      LastRowIsSafe(before, last);
      hide *;
      forall row | row in rows && row.safeToDelete ensures row.sha in AbsorbAll(reports, outs) {
        if row in earlier {
          assert row.sha in before;
        }
      }
      forall k | 0 <= k < |outs|
        ensures rows[k].file == outs[k].file
        ensures (rows[k].safeToDelete <==> Judge(AbsorbAll(reports, outs[..k]), outs[k]) != Quarantined)
      {
        if k < |most| {
          assert rows[k] == earlier[k] && most[..k] == outs[..k];
        }
      }
    }
  }

  lemma {:induction false} TallyTotal(reports: Reports, outs: seq<Outcome>)
    ensures Tally(reports, outs, Imported) + Tally(reports, outs, Skipped) + Tally(reports, outs, Quarantined) == |outs|
  {
    if outs != [] {
      TallyTotal(reports, outs[..|outs| - 1]);
    }
  }

  // ----- Order independence

  /** Equal hashes carry equal canonical keys: the same HTML text describes the same point and grid. */
  ghost predicate Coherent(reports: Reports, outs: seq<Outcome>) {
    && (forall o, p :: o in outs && p in outs && Good(o) && Good(p) && o.record.value.hash == p.record.value.hash ==>
          CanonicalKey(o.record.value) == CanonicalKey(p.record.value))
    && (forall o :: o in outs && Good(o) && o.record.value.hash in reports ==>
          CanonicalKey(o.record.value) == CanonicalKey(reports[o.record.value.hash]))
  }

  ghost function OfferedKeys(outs: seq<Outcome>): set<Key> {
    set o | o in outs && Good(o) :: CanonicalKey(o.record.value)
  }

  lemma {:induction false} Provenance(reports: Reports, outs: seq<Outcome>)
    ensures forall h :: h in AbsorbAll(reports, outs) ==>
              (h in reports && AbsorbAll(reports, outs)[h] == reports[h])
              || exists o ::
                   o in outs && Good(o) && o.record.value.hash == h && AbsorbAll(reports, outs)[h] == o.record.value
  {
    if outs != [] {
      var most, last := outs[..|outs| - 1], outs[|outs| - 1];
      Provenance(reports, most);
      assert forall o :: o in most ==> o in outs;
      assert last in outs;
    }
  }

  lemma OfferedSnoc(outs: seq<Outcome>)
    requires outs != []
    ensures OfferedKeys(outs) == OfferedKeys(outs[..|outs| - 1])
              + if Good(outs[|outs| - 1]) then {CanonicalKey(outs[|outs| - 1].record.value)} else {}
  {
    var most, last := outs[..|outs| - 1], outs[|outs| - 1];
    assert outs == most + [last];
    assert forall o :: o in outs <==> o in most || o == last;
  }

  /** The stored keys are the earlier keys and every key that some readable report offered. */
  lemma {:induction false} FinalKeys(reports: Reports, outs: seq<Outcome>)
    requires Coherent(reports, outs)
    ensures KeysOf(AbsorbAll(reports, outs)) == KeysOf(reports) + OfferedKeys(outs)
  {
    if outs == [] {
      assert OfferedKeys(outs) == {};
    } else {
      var most, last := outs[..|outs| - 1], outs[|outs| - 1];
      assert forall o :: o in most ==> o in outs;
      FinalKeys(reports, most);
      OfferedSnoc(outs);
      var before := AbsorbAll(reports, most);
      assert AbsorbAll(reports, outs) == Absorb(before, last);
      hide *;
      if Judge(before, last) == Skipped {
        SkippedHasKey(reports, outs);
      }
      KeysAbsorb(before, last);
    }
  }

  /** A report that is skipped has the key of the stored one of its hash. */
  lemma SkippedHasKey(reports: Reports, outs: seq<Outcome>)
    requires Coherent(reports, outs) && outs != []
    requires Judge(AbsorbAll(reports, outs[..|outs| - 1]), outs[|outs| - 1]) == Skipped
    ensures var before, last := AbsorbAll(reports, outs[..|outs| - 1]), outs[|outs| - 1];
      CanonicalKey(before[last.record.value.hash]) == CanonicalKey(last.record.value)
  {
    Provenance(reports, outs[..|outs| - 1]);
    assert outs[|outs| - 1] in outs;
  }

  /** One outcome adds its own key, if it is readable and a skip is of a report with that key. */
  lemma KeysAbsorb(before: Reports, o: Outcome)
    requires Judge(before, o) == Skipped ==> CanonicalKey(before[o.record.value.hash]) == CanonicalKey(o.record.value)
    ensures KeysOf(Absorb(before, o)) == KeysOf(before) + if Good(o) then {CanonicalKey(o.record.value)} else {}
  {
    var after := Absorb(before, o);
    if Judge(before, o) == Imported {
      var h := o.record.value.hash;
      assert forall k :: k in before ==> after[k] == before[k];
      assert after[h] == o.record.value && forall k :: k in after ==> k == h || k in before;
    }
  }

  lemma {:induction false} KeysCountRows(reports: Reports)
    requires Unique(reports)
    ensures |KeysOf(reports)| == |reports|
  {
    if |reports| > 0 {
      var h :| h in reports;
      var rest := reports - {h};
      assert Unique(rest) by {
        forall g, k | SameKey(rest, g, k) ensures g == k { assert SameKey(reports, g, k); }
      }
      KeysCountRows(rest);
      assert forall k :: k in reports <==> k == h || k in rest;
      assert forall k :: k in rest ==> rest[k] == reports[k];
      assert KeysOf(reports) == KeysOf(rest) + {CanonicalKey(reports[h])};
      assert CanonicalKey(reports[h]) !in KeysOf(rest) by {
        assert forall k :: k in rest ==> !SameKey(reports, h, k);
      }
      assert |rest| == |reports| - 1 by { assert rest.Keys == reports.Keys - {h}; }
    } else {
      assert KeysOf(reports) == {};
    }
  }

  lemma {:induction false} ImportedIsGrowth(reports: Reports, outs: seq<Outcome>)
    ensures |AbsorbAll(reports, outs)| == |reports| + Tally(reports, outs, Imported)
  {
    if outs != [] {
      ImportedIsGrowth(reports, outs[..|outs| - 1]);
    }
  }

  lemma DisjointGrowth(a: set<Key>, b: set<Key>)
    ensures |a + b| == |a| + |b - a|
  {
    assert a + b == a + (b - a);
  }

  /** The number of imports counts the new keys, whatever the order of completion. */
  lemma ImportedCountsNewKeys(reports: Reports, outs: seq<Outcome>)
    requires Unique(reports) && Coherent(reports, outs)
    ensures Tally(reports, outs, Imported) == |OfferedKeys(outs) - KeysOf(reports)|
  {
    var final := AbsorbAll(reports, outs);
    assert |KeysOf(reports)| == |reports| by { KeysCountRows(reports); }
    assert |KeysOf(final)| == |final| by { AbsorbAllUnique(reports, outs); KeysCountRows(final); }
    assert KeysOf(final) == KeysOf(reports) + OfferedKeys(outs) by { FinalKeys(reports, outs); }
    ImportedIsGrowth(reports, outs);
    DisjointGrowth(KeysOf(reports), OfferedKeys(outs));
  }

  lemma OrderIndependence(reports: Reports, outs: seq<Outcome>, shuffled: seq<Outcome>)
    requires Unique(reports) && Coherent(reports, outs)
    requires |outs| == |shuffled| && forall o :: o in outs <==> o in shuffled
    ensures KeysOf(AbsorbAll(reports, outs)) == KeysOf(AbsorbAll(reports, shuffled))
    ensures Tally(reports, outs, Imported) == Tally(reports, shuffled, Imported)
    ensures Tally(reports, outs, Skipped) + Tally(reports, outs, Quarantined)
         == Tally(reports, shuffled, Skipped) + Tally(reports, shuffled, Quarantined)
  {
    FinalKeys(reports, outs);
    FinalKeys(reports, shuffled);
    assert OfferedKeys(outs) == OfferedKeys(shuffled);
    ImportedCountsNewKeys(reports, outs);
    ImportedCountsNewKeys(reports, shuffled);
    TallyTotal(reports, outs);
    TallyTotal(reports, shuffled);
  }

  function Only(o: Outcome): Reports
    requires Good(o)
  {
    map[o.record.value.hash := o.record.value]
  }

  lemma JudgeAgainstOne(a: Outcome, b: Outcome)
    requires Good(a) && Good(b) && CanonicalKey(a.record.value) == CanonicalKey(b.record.value)
    ensures Judge(map[], a) == Imported && Absorb(map[], a) == Only(a)
    ensures Judge(Only(a), b) == if a.record.value.hash == b.record.value.hash then Skipped else Quarantined
    ensures Absorb(Only(a), b) == Only(a)
  {
    assert a.record.value.hash in Only(a);
  }

  /** Skips and quarantines do depend on the order, only their sum is fixed: two files with the same
      content and a rival report for the same key give a skip only if one of the two comes first. */
  lemma SkipsDependOnOrder(a: Outcome, copy: Outcome, b: Outcome, none: Reports,
                           outs: seq<Outcome>, shuffled: seq<Outcome>)
    requires Good(a) && Good(copy) && Good(b) && copy.record == a.record && copy.file != a.file
    requires a.record.value.hash != b.record.value.hash
    requires CanonicalKey(a.record.value) == CanonicalKey(b.record.value)
    requires none == map[] && outs == [a, copy, b] && shuffled == [b, a, copy]
    ensures Tally(none, outs, Skipped) == 1 && Tally(none, shuffled, Skipped) == 0
    ensures Coherent(none, outs) && multiset(outs) == multiset(shuffled)
  {
    assert Coherent(none, outs);
    JudgeAgainstOne(a, copy);
    JudgeAgainstOne(a, b);
    JudgeAgainstOne(b, a);
    JudgeAgainstOne(b, copy);
    hide *;
    ThreeOutcomes(none, a, copy, b);
    ThreeOutcomes(none, b, a, copy);
  }

  function One(holds: bool): nat {
    if holds then 1 else 0
  }

  lemma ThreeOutcomes(db: Reports, x: Outcome, y: Outcome, z: Outcome)
    ensures Tally(db, [x, y, z], Skipped) ==
      One(Judge(db, x) == Skipped) + One(Judge(Absorb(db, x), y) == Skipped)
        + One(Judge(Absorb(Absorb(db, x), y), z) == Skipped)
  {
    assert [x, y, z][..2] == [x, y] && [x, y][..1] == [x] && [x][..0] == [];
    hide Judge, Absorb;
    assert Tally(db, [x], Skipped) == One(Judge(db, x) == Skipped) && AbsorbAll(db, [x]) == Absorb(db, x);
    assert Tally(db, [x, y], Skipped) == Tally(db, [x], Skipped) + One(Judge(Absorb(db, x), y) == Skipped);
    assert AbsorbAll(db, [x, y]) == Absorb(Absorb(db, x), y);
  }

  ghost function ImportedSum(reports: Reports, outs: seq<Outcome>, weight: Record -> nat): nat {
    if outs == [] then 0
    else
      ImportedSum(reports, outs[..|outs| - 1], weight)
      + if Judge(AbsorbAll(reports, outs[..|outs| - 1]), outs[|outs| - 1]) == Imported
        then weight(outs[|outs| - 1].record.value) else 0
  }

  lemma ImportedSumSnoc(reports: Reports, outs: seq<Outcome>, o: Outcome, weight: Record -> nat)
    ensures ImportedSum(reports, outs + [o], weight)
         == ImportedSum(reports, outs, weight) + if Judge(AbsorbAll(reports, outs), o) == Imported
           then weight(o.record.value) else 0
  {
    assert (outs + [o])[..|outs|] == outs;
  }

  // ----- The same in terms of points and grids

  /** Some stored report describes the same point on the same grid. */
  ghost predicate Taken(reports: Reports, r: Record) {
    exists h :: HoldsPair(reports, r, h)
  }

  ghost predicate HoldsPair(reports: Reports, r: Record, h: Sha) {
    h in reports && reports[h].point == r.point && reports[h].grid == r.grid
  }

  lemma TakenIsKey(reports: Reports, r: Record)
    ensures Taken(reports, r) <==> CanonicalKey(r) in KeysOf(reports)
  {
    if Taken(reports, r) {
      var h :| HoldsPair(reports, r, h);
      assert CanonicalKey(reports[h]) == CanonicalKey(r);
    }
    if CanonicalKey(r) in KeysOf(reports) {
      var h :| h in reports && CanonicalKey(reports[h]) == CanonicalKey(r);
      assert HoldsPair(reports, r, h);
    }
  }

  /** The verdict on one outcome, by the fields of the report: an error class or a missing record quarantines,
      a stored hash skips, a stored report of the same point and grid quarantines, and nothing else does. */
  lemma JudgeMeans(reports: Reports, o: Outcome)
    ensures o.record == None || (o.errorClass.Some? && o.errorClass.value != "") ==> Judge(reports, o) == Quarantined
    ensures o.record.Some? && (o.errorClass == None || o.errorClass == Some("")) ==>
      var r := o.record.value;
      && (Judge(reports, o) == Skipped <==> r.hash in reports)
      && (Judge(reports, o) == Quarantined <==> r.hash !in reports && Taken(reports, r))
  {
    if o.record.Some? {
      TakenIsKey(reports, o.record.value);
    }
  }

  /** The checklist row of a readable report: an imported one carries its own figures, a skipped one those stored under
      its hash, and a rejected one names a stored report of the same point and grid. */
  lemma RowMeans(reports: Reports, o: Outcome)
    requires o.record.Some? && (o.errorClass == None || o.errorClass == Some(""))
    requires forall h :: h in reports ==> reports[h].hash == h
    ensures var r, row := o.record.value, RowFor(reports, o);
      && row.file == o.file && row.sha == r.hash
      && (r.hash !in reports && !Taken(reports, r) ==>
            row == Row(o.file, r.hash, Imported, Some(ReportId(r.hash)),
                       Some((r.rawActions, r.equitySamples, r.walletChanges)), true, Blank))
      && (r.hash in reports ==>
            && row.status == Skipped && row.safeToDelete && row.reason == AlreadyImported
            && row.reportId == Some(ReportId(reports[r.hash].hash))
            && row.counts == Some((reports[r.hash].rawActions, reports[r.hash].equitySamples,
                                   reports[r.hash].walletChanges)))
      && (r.hash !in reports && Taken(reports, r) ==>
            && row.status == Quarantined && !row.safeToDelete && row.reportId == None && row.counts == None
            && exists h :: HoldsPair(reports, r, h) && row.reason == Duplicate(ReportId(h)))
  {
    var r := o.record.value;
    TakenIsKey(reports, r);
    if r.hash !in reports && Taken(reports, r) {
      var h := Holder(reports, CanonicalKey(r));
      assert HoldsPair(reports, r, h);
    }
  }

  /** The row of an unreadable file: rejected under the hash that was seen, with the message if there is one; a worker
      that raised has seen no hash and its error is the message. */
  lemma BadRowMeans(reports: Reports, o: Outcome, file: string, text: string)
    requires o.record == None || (o.errorClass.Some? && o.errorClass.value != "")
    ensures var row := RowFor(reports, o);
      && row.file == o.file && row.sha == o.sha && row.status == Quarantined && !row.safeToDelete
      && row.reportId == None && row.counts == None
      && (o.message.Some? && o.message.value != Message("") ==> row.reason == o.message.value)
      && (o.message == None || o.message.value == Message("") ==> row.reason == UnknownWorkerError)
    ensures RowFor(reports, OutcomeOf(file, Raised(text))) ==
      Row(file, Unreadable, Quarantined, None, None, false, WorkerFailed(text))
  {
  }

  ghost function PairsOf(reports: Reports): set<(string, string)> {
    set h | h in reports :: (reports[h].point, reports[h].grid)
  }

  ghost function OfferedPairs(outs: seq<Outcome>): set<(string, string)> {
    set o | o in outs && Good(o) :: (o.record.value.point, o.record.value.grid)
  }

  /** Files of equal hash hold the same report: the same point on the same grid. */
  ghost predicate SameContent(reports: Reports, outs: seq<Outcome>) {
    && (forall o, p :: o in outs && p in outs && Good(o) && Good(p) && o.record.value.hash == p.record.value.hash ==>
          o.record.value.point == p.record.value.point && o.record.value.grid == p.record.value.grid)
    && (forall o :: o in outs && Good(o) && o.record.value.hash in reports ==>
          o.record.value.point == reports[o.record.value.hash].point
          && o.record.value.grid == reports[o.record.value.hash].grid)
  }

  ghost function KeyFor(pair: (string, string)): Key {
    Key(pair.0, pair.1)
  }

  ghost function KeysFor(pairs: set<(string, string)>): set<Key> {
    set p | p in pairs :: KeyFor(p)
  }

  lemma PairsAreKeys(reports: Reports, outs: seq<Outcome>)
    ensures KeysOf(reports) == KeysFor(PairsOf(reports))
    ensures OfferedKeys(outs) == KeysFor(OfferedPairs(outs))
  {
    forall k | k in KeysOf(reports) ensures exists p :: p in PairsOf(reports) && KeyFor(p) == k {
      var h :| h in reports && CanonicalKey(reports[h]) == k;
      assert KeyFor((reports[h].point, reports[h].grid)) == k;
    }
    forall p | p in PairsOf(reports) ensures KeyFor(p) in KeysOf(reports) {
      var h :| h in reports && (reports[h].point, reports[h].grid) == p;
      assert CanonicalKey(reports[h]) == KeyFor(p);
    }
    forall k | k in OfferedKeys(outs) ensures exists p :: p in OfferedPairs(outs) && KeyFor(p) == k {
      var o :| o in outs && Good(o) && CanonicalKey(o.record.value) == k;
      assert KeyFor((o.record.value.point, o.record.value.grid)) == k;
    }
    forall p | p in OfferedPairs(outs) ensures KeyFor(p) in OfferedKeys(outs) {
      var o :| o in outs && Good(o) && (o.record.value.point, o.record.value.grid) == p;
      assert CanonicalKey(o.record.value) == KeyFor(p);
    }
  }

  lemma {:induction false} KeysCountPairs(pairs: set<(string, string)>)
    ensures |KeysFor(pairs)| == |pairs|
  {
    if pairs == {} {
      assert KeysFor(pairs) == {};
    } else {
      var p :| p in pairs;
      var rest := pairs - {p};
      KeysCountPairs(rest);
      assert KeysFor(pairs) == KeysFor(rest) + {KeyFor(p)};
    }
  }

  /** The database ends with the earlier point and grid pairs and every offered one, and the imports count
      the pairs that are new, whatever the order of completion. */
  lemma FinalPairs(reports: Reports, outs: seq<Outcome>)
    requires Unique(reports) && SameContent(reports, outs)
    ensures PairsOf(AbsorbAll(reports, outs)) == PairsOf(reports) + OfferedPairs(outs)
    ensures Tally(reports, outs, Imported) == |OfferedPairs(outs) - PairsOf(reports)|
  {
    var final := AbsorbAll(reports, outs);
    assert Coherent(reports, outs);
    FinalKeys(reports, outs);
    ImportedCountsNewKeys(reports, outs);
    PairsAreKeys(reports, outs);
    PairsAreKeys(final, outs);
    hide *;
    KeysOfPairs(PairsOf(reports), OfferedPairs(outs));
    SameKeysSamePairs(PairsOf(final), PairsOf(reports) + OfferedPairs(outs));
    KeysCountPairs(OfferedPairs(outs) - PairsOf(reports));
  }

  lemma SameKeysSamePairs(a: set<(string, string)>, b: set<(string, string)>)
    requires KeysFor(a) == KeysFor(b)
    ensures a == b
  {
    PairInKeys(a, b);
    PairInKeys(b, a);
    assert a <= b && b <= a;
  }

  lemma PairInKeys(a: set<(string, string)>, b: set<(string, string)>)
    requires KeysFor(a) <= KeysFor(b)
    ensures a <= b
  {
    forall p | p in a ensures p in b {
      assert KeyFor(p) in KeysFor(a);
      var q :| q in b && KeyFor(q) == KeyFor(p);
      assert q == p;
    }
  }

  lemma KeysOfPairs(a: set<(string, string)>, b: set<(string, string)>)
    ensures KeysFor(a + b) == KeysFor(a) + KeysFor(b)
    ensures KeysFor(b - a) == KeysFor(b) - KeysFor(a)
  {
  }

  // ----- The database and the pool as the importer sees them

  datatype Tables = Tables(reports: Reports, points: set<string>, grids: set<string>, rejected: map<Sha,
      (string, Reason)>)

  /** Constraints of the schema: unique rows whose point and grid rows exist. */
  ghost predicate Sane(t: Tables) {
    Unique(t.reports) && forall h :: h in t.reports ==> t.reports[h].point in t.points && t.reports[h].grid in t.grids
  }

  /** Everything the executor decides: which submission it refuses, which non-empty batch of
      in-flight futures each `wait` finds completed, and what every future delivers.  A `Pool`
      is arbitrary, so what holds for all pools holds for every completion order. */
  datatype Pool = Pool(refuses: nat -> bool, wait: (nat, set<nat>) -> seq<nat>, deliver: nat -> Delivery)

  /** None of the first `n` submissions is refused. */
  ghost predicate Submitted(pool: Pool, n: nat) {
    forall i: nat :: i < n ==> !pool.refuses(i)
  }

  ghost predicate Legal(pool: Pool) {
    AlwaysDraws(pool.wait)
  }

  ghost function OutcomesOf(files: seq<string>, pool: Pool, order: seq<nat>): (outs: seq<Outcome>)
    requires forall k :: k in order ==> k < |files|
    ensures |outs| == |order|
  {
    seq(|order|, k requires 0 <= k < |order| && order[k] in order => OutcomeOf(files[order[k]], pool.deliver(order[k])))
  }

  /** A worker that returns says which file it read. */
  ghost predicate Honest(pool: Pool, files: seq<string>) {
    forall i: nat :: i < |files| && pool.deliver(i).Returned? ==> pool.deliver(i).outcome.file == files[i]
  }

  datatype Summary = Summary(scanned: nat, parsed: nat, imported: nat, skipped: nat, quarantined: nat,
                             rawActions: nat, equitySamples: nat)

  datatype Known = Known(reportId: ReportId, rawActions: nat, equitySamples: nat, walletChanges: nat)

  function KnownOf(r: Record): Known {
    Known(ReportId(r.hash), r.rawActions, r.equitySamples, r.walletChanges)
  }

  lemma KeysGrow(reports: Reports, r: Record)
    requires r.hash !in reports
    ensures KeysOf(reports[r.hash := r]) == KeysOf(reports) + {CanonicalKey(r)}
  {
    var after := reports[r.hash := r];
    assert forall h :: h in reports ==> after[h] == reports[h];
    assert after[r.hash] == r && forall h :: h in after ==> h == r.hash || h in reports;
  }

  /** The tables after a report has gone in, with the point and grid rows it refers to. */
  function Inserted(t: Tables, r: Record): Tables {
    t.(reports := t.reports[r.hash := r], points := t.points + {r.point}, grids := t.grids + {r.grid})
  }

  lemma InsertedIsSane(t: Tables, r: Record)
    requires Sane(t) && r.hash !in t.reports && CanonicalKey(r) !in KeysOf(t.reports)
    ensures Sane(Inserted(t, r))
  {
    var after := Inserted(t, r).reports;
    assert forall h :: h in t.reports ==> CanonicalKey(t.reports[h]) in KeysOf(t.reports);
    forall h, k | SameKey(after, h, k) ensures h == k {
      if h in t.reports && k in t.reports {
        assert SameKey(t.reports, h, k);
      }
    }
  }

  /** The tables after one outcome: a stored report, a rejected file, or nothing. */
  ghost function Store(t: Tables, o: Outcome): Tables {
    match Judge(t.reports, o)
    case Imported => Inserted(t, o.record.value)
    case Skipped => t
    case Quarantined => Rejected(t, RowFor(t.reports, o))
  }

  ghost function Rejected(t: Tables, row: Row): Tables {
    t.(rejected := t.rejected[row.sha := (row.file, row.reason)])
  }

  ghost function StoreAll(t: Tables, outs: seq<Outcome>): Tables {
    if outs == [] then t else Store(StoreAll(t, outs[..|outs| - 1]), outs[|outs| - 1])
  }

  lemma {:induction false} StoreAllIsSane(t: Tables, outs: seq<Outcome>)
    requires Sane(t)
    ensures Sane(StoreAll(t, outs)) && StoreAll(t, outs).reports == AbsorbAll(t.reports, outs)
  {
    if outs != [] {
      var before, o := StoreAll(t, outs[..|outs| - 1]), outs[|outs| - 1];
      StoreAllIsSane(t, outs[..|outs| - 1]);
      if Judge(before.reports, o) == Imported {
        InsertedIsSane(before, o.record.value);
      }
    }
  }

  /** What the writer remembers about the stored reports, by hash and by key. */
  ghost function HashesOf(reports: Reports): map<Sha, Known> {
    map h | h in reports :: KnownOf(reports[h])
  }

  ghost function CanonicalOf(reports: Reports): map<Key, ReportId> {
    map k | k in KeysOf(reports) :: ReportId(Holder(reports, k))
  }

  lemma HolderIs(reports: Reports, h: Sha)
    requires Unique(reports) && h in reports
    ensures Holder(reports, CanonicalKey(reports[h])) == h
  {
    assert SameKey(reports, h, Holder(reports, CanonicalKey(reports[h])));
  }

  lemma MemoryGrows(t: Tables, r: Record)
    requires Sane(t) && r.hash !in t.reports && CanonicalKey(r) !in KeysOf(t.reports)
    ensures HashesOf(t.reports[r.hash := r]) == HashesOf(t.reports)[r.hash := KnownOf(r)]
    ensures CanonicalOf(t.reports[r.hash := r]) == CanonicalOf(t.reports)[CanonicalKey(r) := ReportId(r.hash)]
  {
    var after := t.reports[r.hash := r];
    KeysGrow(t.reports, r);
    InsertedIsSane(t, r);
    forall k | k in KeysOf(after)
      ensures CanonicalOf(after)[k] == CanonicalOf(t.reports)[CanonicalKey(r) := ReportId(r.hash)][k]
    {
      if k == CanonicalKey(r) {
        HolderIs(after, r.hash);
      } else {
        HolderIs(after, Holder(t.reports, k));
      }
    }
  }

  /** `_load_known`: one pass over the stored rows. */
  method LoadKnown(reports: Reports) returns (hashes: map<Sha, Known>, canonical: map<Key, ReportId>)
    requires Unique(reports)
    ensures hashes == HashesOf(reports) && canonical == CanonicalOf(reports)
  {
    hashes := map h | h in reports :: KnownOf(reports[h]);
    forall h, k | h in reports && k in reports && CanonicalKey(reports[h]) == CanonicalKey(reports[k]) ensures h == k {
      assert SameKey(reports, h, k);
    }
    canonical := map h | h in reports :: CanonicalKey(reports[h]) := ReportId(h);
    forall k | k in canonical ensures canonical[k] == CanonicalOf(reports)[k] {
      HolderIs(reports, Holder(reports, k));
    }
  }

  datatype Writer = Writer(committed: Tables, working: Tables, hashes: map<Sha, Known>, canonical: map<Key, ReportId>,
                           points: set<string>, grids: set<string>, checklist: seq<Row>,
                           quarantine: seq<(string, Sha, Reason)>)

  /** The known sets mirror the open transaction. */
  ghost predicate Mirrors(w: Writer) {
    && w.hashes == HashesOf(w.working.reports)
    && w.canonical == CanonicalOf(w.working.reports)
    && w.points == w.working.points
    && w.grids == w.working.grids
  }

  /** The run so far: `outs` are stored, the last commit covered the prefix `kept` of them. */
  ghost predicate Running(w: Writer, db: Tables, outs: seq<Outcome>, kept: seq<Outcome>, sum: Summary, sinceCommit: nat,
                          batchSize: nat) {
    && Mirrors(w)
    && w.working == StoreAll(db, outs)
    && w.checklist == RowsFor(db.reports, outs)
    && w.quarantine == RejectsOf(w.checklist)
    && sum == SummaryOf(sum.scanned, db.reports, outs)
    && kept <= outs
    && w.committed == StoreAll(db, kept)
    && sinceCommit == Tally(db.reports, outs, Imported) - Tally(db.reports, kept, Imported)
    && sinceCommit < batchSize
  }

  /** The run so far, with the completion order that produced it. */
  ghost predicate Importing(w: Writer, db: Tables, files: seq<string>, pool: Pool, order: seq<nat>, kept: seq<Outcome>,
                            sum: Summary, sinceCommit: nat, batchSize: nat)
  {
    && (forall k :: k in order ==> k < |files|)
    && Running(w, db, OutcomesOf(files, pool, order), kept, sum, sinceCommit, batchSize)
    && sum.scanned == |files|
  }

  /** Before the first completion. */
  lemma NothingCompleted(w: Writer, db: Tables, files: seq<string>, pool: Pool, batchSize: nat)
    requires Mirrors(w) && w.committed == w.working == db && w.checklist == [] && w.quarantine == []
    ensures StoreAll(db, []) == db && RowsFor(db.reports, []) == [] && RejectsOf([]) == []
    ensures OutcomesOf(files, pool, []) == []
    ensures batchSize >= 1 ==> Importing(w, db, files, pool, [], [], Summary(|files|, 0, 0, 0, 0, 0, 0), 0, batchSize)
  {
  }

  /** The writer: one connection with an open transaction, and the sets it keeps beside it. */
  class Importer {
    var committed: Tables
    var working: Tables
    var knownHashes: map<Sha, Known>
    var knownCanonical: map<Key, ReportId>
    var knownPoints: set<string>
    var knownGrids: set<string>
    var checklist: seq<Row>
    var quarantine: seq<(string, Sha, Reason)>
    /** What has been submitted and what has completed, in that order. */
    ghost var log: seq<Event>

    ghost function State(): Writer
      reads this
    {
      Writer(committed, working, knownHashes, knownCanonical, knownPoints, knownGrids, checklist, quarantine)
    }

    ghost predicate Valid()
      reads this
    {
      Mirrors(State())
    }

    constructor (db: Tables)
      requires Sane(db)
      ensures Valid() && committed == db && working == db && checklist == [] && quarantine == [] && log == []
    {
      committed, working := db, db;
      var hashes, canonical := LoadKnown(db.reports);
      knownHashes, knownCanonical, knownPoints, knownGrids := hashes, canonical, db.points, db.grids;
      checklist, quarantine, log := [], [], [];
    }

    method InsertCompactRecord(r: Record) returns (result: Result<(ReportId, nat), Reason>)
      requires Valid() && r.hash !in working.reports
      modifies this`working, this`knownCanonical, this`knownPoints, this`knownGrids
      ensures result.Err? <==> Taken(old(working.reports), r)
      ensures result.Err? ==> Valid() && working == old(working)
      ensures result.Err? ==> result.error == Duplicate(ReportId(Holder(working.reports, CanonicalKey(r))))
      ensures result.Err? ==> exists h :: HoldsPair(working.reports, r, h) && result.error == Duplicate(ReportId(h))
      ensures result.Ok? ==> result.value == (ReportId(r.hash), r.walletChanges) && working == Inserted(old(working), r)
      ensures result.Ok? ==> knownCanonical == old(knownCanonical)[CanonicalKey(r) := ReportId(r.hash)]
      ensures result.Ok? ==> knownPoints == working.points && knownGrids == working.grids
    {
      var reportId, key := ReportId(r.hash), CanonicalKey(r);
      TakenIsKey(working.reports, r);
      if key in knownCanonical {
        assert HoldsPair(working.reports, r, Holder(working.reports, key));
        return Err(Duplicate(knownCanonical[key]));
      }
      if r.point !in knownPoints {
        working := working.(points := working.points + {r.point});
        knownPoints := knownPoints + {r.point};
      }
      if r.grid !in knownGrids {
        working := working.(grids := working.grids + {r.grid});
        knownGrids := knownGrids + {r.grid};
      }
      working := working.(reports := working.reports[r.hash := r]);
      knownCanonical := knownCanonical[key := reportId];
      assert old(working).points + {r.point} == working.points && old(working).grids + {r.grid} == working.grids;
      return Ok((reportId, r.walletChanges));
    }

    method Quarantine(file: string, sha: Sha, reason: Reason)
      requires Valid()
      modifies this`working, this`checklist, this`quarantine
      ensures Valid() && working == old(working).(rejected := old(working.rejected)[sha := (file, reason)])
      ensures checklist == old(checklist) + [RejectedRow(file, sha, reason)]
      ensures quarantine == old(quarantine) + [(file, sha, reason)]
    {
      working := working.(rejected := working.rejected[sha := (file, reason)]);
      checklist := checklist + [Row(file, sha, Quarantined, None, None, false, reason)];
      quarantine := quarantine + [(file, sha, reason)];
    }

    /** Store one completed parse: the tables follow `Store`, and one row documents the verdict. */
    method StoreOutcome(o: Outcome) returns (status: Status, actions: nat, samples: nat)
      requires Valid() && Sane(working)
      modifies this`working, this`knownHashes, this`knownCanonical, this`knownPoints
      modifies this`knownGrids, this`checklist, this`quarantine
      ensures Valid() && working == Store(old(working), o)
      ensures status == Judge(old(working.reports), o)
      ensures status == Imported ==> actions == o.record.value.rawActions && samples == o.record.value.equitySamples
      ensures status != Imported ==> actions == 0 && samples == 0
      ensures checklist == old(checklist) + [RowFor(old(working.reports), o)]
      ensures quarantine == old(quarantine) + RejectOf(RowFor(old(working.reports), o))
    {
      if !Good(o) {
        Quarantine(o.file, o.sha, ReasonOf(o));
        return Quarantined, 0, 0;
      }
      var report := o.record.value;
      if report.hash in knownHashes {
        var known := knownHashes[report.hash];
        checklist := checklist + [Row(o.file, report.hash, Skipped, Some(known.reportId),
                                      Some((known.rawActions, known.equitySamples, known.walletChanges)), true,
                                      AlreadyImported)];
        return Skipped, 0, 0;
      }
      var inserted := InsertCompactRecord(report);
      if inserted.Err? {
        Quarantine(o.file, report.hash, inserted.error);
        return Quarantined, 0, 0;
      }
      var (reportId, walletCount) := inserted.value;
      TakenIsKey(old(working.reports), report);
      MemoryGrows(old(working), report);
      knownHashes := knownHashes[report.hash := Known(reportId, report.rawActions, report.equitySamples, walletCount)];
      checklist := checklist + [Row(o.file, report.hash, Imported, Some(reportId),
                                    Some((report.rawActions, report.equitySamples, walletCount)), true, Blank)];
      return Imported, report.rawActions, report.equitySamples;
    }

    method Commit()
      modifies this`committed
      ensures committed == working
    {
      committed := working;
    }

    method Rollback()
      modifies this`working
      ensures working == committed
    {
      working := committed;
    }

    /** One completed future: store it, count it, and commit when the batch is full. */
    method Complete(o: Outcome, sum: Summary, sinceCommit: nat, batchSize: nat,
                    ghost db: Tables, ghost outs: seq<Outcome>, ghost kept: seq<Outcome>)
      returns (sum': Summary, sinceCommit': nat, ghost kept': seq<Outcome>)
      requires Sane(db) && Running(State(), db, outs, kept, sum, sinceCommit, batchSize)
      modifies this
      ensures Running(State(), db, outs + [o], kept', sum', sinceCommit', batchSize) && sum'.scanned == sum.scanned
      ensures log == old(log)
    {
      hide RowsFor, RejectsOf, StoreAll, Tally, AbsorbAll, SummaryOf;
      StoreAllIsSane(db, outs);
      StoreAllSnoc(db, outs, o);
      SummarySnoc(sum.scanned, db.reports, outs, o);
      RejectsSnoc(checklist, RowFor(working.reports, o));
      sinceCommit', kept' := sinceCommit, kept;
      var status, actions, samples := StoreOutcome(o);
      sum' := Counted(sum, status, actions, samples);
      if status == Imported {
        sinceCommit' := sinceCommit' + 1;
      }
      if sinceCommit' >= batchSize {
        Commit();
        sinceCommit', kept' := 0, outs + [o];
      }
    }

    // ----- The bounded pipeline

    /** Submit files until the window of `3 * workers` is full, the files run out, or the executor refuses. */
    method FillQueue(count: nat, workers: nat, pool: Pool, inFlight: set<nat>, next: nat, ghost order: seq<nat>)
      returns (inFlight': set<nat>, next': nat, refused: bool)
      requires Scheduled(order, inFlight, next, count) && |inFlight| <= 3 * workers && Submitted(pool, next)
      requires Logged(log, order, next, 3 * workers)
      modifies this`log
      ensures Scheduled(order, inFlight', next', count) && |inFlight'| <= 3 * workers && Submitted(pool, next')
      ensures Logged(log, order, next', 3 * workers)
      ensures if refused then next' < count && pool.refuses(next') else |inFlight'| == 3 * workers || next' == count
    {
      hide Logged;
      inFlight', next' := inFlight, next;
      while |inFlight'| < 3 * workers
        invariant Scheduled(order, inFlight', next', count) && |inFlight'| <= 3 * workers && Submitted(pool, next')
        invariant Logged(log, order, next', 3 * workers)
        decreases count - next'
      {
        if next' == count {
          return inFlight', next', false;
        }
        if pool.refuses(next') {
          return inFlight', next', true;
        }
        ScheduledLength(order, inFlight', next', count);
        LogSubmission(log, order, next', 3 * workers);
        log := log + [Submission(next')];
        inFlight', next' := inFlight' + {next'}, next' + 1;
      }
      refused := false;
    }

    /** One future of a completed batch, of which `next` have been submitted in a window of `limit`. */
    method DrainOne(files: seq<string>, pool: Pool, i: nat, sum: Summary, sinceCommit: nat, batchSize: nat,
                    ghost db: Tables, ghost order: seq<nat>, ghost kept: seq<Outcome>, ghost next: nat,
                    ghost limit: nat)
      returns (sum': Summary, sinceCommit': nat, ghost kept': seq<Outcome>)
      requires Sane(db) && i < next <= |files|
      requires Importing(State(), db, files, pool, order, kept, sum, sinceCommit, batchSize)
      requires Logged(log, order, next, limit)
      modifies this
      ensures Importing(State(), db, files, pool, order + [i], kept', sum', sinceCommit', batchSize)
      ensures Logged(log, order + [i], next, limit)
    {
      hide Logged, Running;
      LogCompletion(log, order, next, limit, i);
      log := log + [Completion(i)];
      var o := OutcomeOf(files[i], pool.deliver(i));
      ghost var outs := OutcomesOf(files, pool, order);
      sum', sinceCommit', kept' := Complete(o, sum, sinceCommit, batchSize, db, outs, kept);
      assert forall k :: k in order + [i] ==> k < |files|;
      assert OutcomesOf(files, pool, order + [i]) == outs + [o];
    }

    /** The writer's pass over one batch of completed futures. */
    method Drain(files: seq<string>, pool: Pool, batch: seq<nat>, inFlight: set<nat>, sum: Summary, sinceCommit: nat,
                 batchSize: nat,
                 ghost db: Tables, ghost order: seq<nat>, ghost kept: seq<Outcome>, ghost next: nat, ghost limit: nat)
      returns (inFlight': set<nat>, sum': Summary, sinceCommit': nat, ghost order': seq<nat>, ghost kept': seq<Outcome>)
      requires Sane(db) && next <= |files| && forall k :: 0 <= k < |batch| ==> batch[k] < next
      requires Importing(State(), db, files, pool, order, kept, sum, sinceCommit, batchSize)
      requires Logged(log, order, next, limit)
      modifies this
      ensures inFlight' == inFlight - Members(batch) && order' == order + batch
      ensures Importing(State(), db, files, pool, order', kept', sum', sinceCommit', batchSize)
      ensures Logged(log, order', next, limit)
    {
      hide Running, Logged;
      inFlight', sum', sinceCommit', order', kept' := inFlight, sum, sinceCommit, order, kept;
      for k := 0 to |batch|
        invariant inFlight' == inFlight - Members(batch[..k])
        invariant order' == order + batch[..k]
        invariant Importing(State(), db, files, pool, order', kept', sum', sinceCommit', batchSize)
        invariant Logged(log, order', next, limit)
      {
        var i := batch[k];
        inFlight' := inFlight' - {i};
        sum', sinceCommit', kept' := DrainOne(files, pool, i, sum', sinceCommit', batchSize, db, order', kept', next,
            limit);
        order' := order' + [i];
        assert batch[..k + 1] == batch[..k] + [i];
      }
      assert batch[..|batch|] == batch;
    }

    /** Keep the window full and drain it until nothing is in flight or the executor refuses a file. */
    method Pump(files: seq<string>, pool: Pool, workers: nat, batchSize: nat, ghost db: Tables)
      returns (sum: Summary, sinceCommit: nat, refused: bool, ghost order: seq<nat>, ghost kept: seq<Outcome>,
               ghost next: nat)
      requires Legal(pool) && workers >= 1 && Sane(db) && log == []
      requires Importing(State(), db, files, pool, [], [], Summary(|files|, 0, 0, 0, 0, 0, 0), 0, batchSize)
      modifies this
      ensures Importing(State(), db, files, pool, order, kept, sum, sinceCommit, batchSize)
      ensures Distinct(order) && Logged(log, order, next, 3 * workers)
      ensures !refused ==> |order| == |files| == next && order == OrderOf(pool.wait, |files|, 3 * workers)
      ensures refused ==> next < |files| && pool.refuses(next)
      ensures refused <==> !Submitted(pool, |files|)
    {
      hide Logged, Importing;
      order, kept := [], [];
      sum, sinceCommit := Summary(|files|, 0, 0, 0, 0, 0, 0), 0;
      var inFlight: set<nat>, upcoming: nat, step: nat := {}, 0, 0;
      EmptyLog(3 * workers);
      inFlight, upcoming, refused := FillQueue(|files|, workers, pool, inFlight, upcoming, order);
      if !refused {
        ScheduledIsWaiting(order, inFlight, upcoming, |files|, 3 * workers);
      }
      while inFlight != {} && !refused
        invariant Scheduled(order, inFlight, upcoming, |files|) && |inFlight| <= 3 * workers
        invariant !refused && inFlight == {} ==> upcoming == |files|
        invariant Submitted(pool, upcoming) && (refused ==> upcoming < |files| && pool.refuses(upcoming))
        invariant Importing(State(), db, files, pool, order, kept, sum, sinceCommit, batchSize)
        invariant Logged(log, order, upcoming, 3 * workers)
        invariant !refused ==> inFlight == Waiting(order, |files|, 3 * workers)
        invariant Admitted(order, |files|, 3 * workers)
        invariant OrderFrom(pool.wait, |files|, 3 * workers, step, order) == OrderOf(pool.wait, |files|, 3 * workers)
        decreases |files| - |order|
      {
        WaitingIsScheduled(order, |files|, 3 * workers);
        AdmitBatch(order, |files|, 3 * workers, pool.wait(step, inFlight));
        var batch := pool.wait(step, inFlight);
        step := step + 1;
        ghost var before := inFlight;
        ScheduledDrain(order, inFlight, batch, upcoming, |files|);
        inFlight, sum, sinceCommit, order, kept :=
          Drain(files, pool, batch, inFlight, sum, sinceCommit, batchSize, db, order, kept, upcoming, 3 * workers);
        ScheduledLength(order, inFlight, upcoming, |files|);
        SubsetSize(inFlight, before);
        inFlight, upcoming, refused := FillQueue(|files|, workers, pool, inFlight, upcoming, order);
        if !refused {
          ScheduledIsWaiting(order, inFlight, upcoming, |files|, 3 * workers);
        }
      }
      ScheduledLength(order, inFlight, upcoming, |files|);
      next := upcoming;
    }

    /** A whole import.  `order` is the completion order it happened to see, `kept` the prefix of its
        outcomes that the database holds and `next` the number of files submitted: a normal return keeps
        everything, a raised error keeps a prefix and loses less than one batch. */
    method ImportReports(files: seq<string>, pool: Pool, workers: int, batchSize: int)
      returns (result: Result<Summary, string>, ghost order: seq<nat>, ghost kept: seq<Outcome>, ghost next: nat)
      requires Valid() && committed == working && Sane(working) && Legal(pool)
      requires checklist == [] && quarantine == [] && log == []
      modifies this
      ensures Distinct(order) && forall k :: k in order ==> k < |files|
      ensures kept <= OutcomesOf(files, pool, order) && committed == working == StoreAll(old(working), kept)
      ensures result.Err? <==> workers < 1 || batchSize < 1 || !Submitted(pool, |files|)
      ensures workers < 1 || batchSize < 1 ==> order == [] && log == []
      ensures workers >= 1 ==> Logged(log, order, next, 3 * workers)
      ensures result.Err? && workers >= 1 && batchSize >= 1 ==> next < |files| && pool.refuses(next)
      ensures checklist == RowsFor(old(working.reports), OutcomesOf(files, pool, order))
      ensures quarantine == RejectsOf(checklist)
      ensures result.Ok? ==>
                && |order| == |files| == next && kept == OutcomesOf(files, pool, order)
                && result.value == SummaryOf(|files|, old(working.reports), OutcomesOf(files, pool, order))
      ensures result.Ok? ==> workers >= 1 && order == OrderOf(pool.wait, |files|, 3 * workers)
      ensures result.Ok? && Honest(pool, files) ==> multiset(FilesOf(checklist)) == multiset(files)
      ensures result.Err? && batchSize >= 1 ==>
                var outs := OutcomesOf(files, pool, order);
                Tally(old(working.reports), outs, Imported) < Tally(old(working.reports), kept, Imported) + batchSize
    {
      hide Logged, Honest, FilesOf, StoreAll, RowsFor, RejectsOf, OutcomesOf, Tally, SummaryOf, Mirrors;
      hide Legal, Submitted;
      order, kept, next := [], [], 0;
      NothingCompleted(State(), working, files, pool, if batchSize < 1 then 0 else batchSize);
      if workers < 1 {
        return Err("workers must be at least one"), order, kept, next;
      }
      if batchSize < 1 {
        EmptyLog(3 * workers);
        return Err("progress_every and batch_size must be at least one"), order, kept, next;
      }
      ghost var db := working;
      var sum, sinceCommit, refused;
      sum, sinceCommit, refused, order, kept, next := Pump(files, pool, workers, batchSize, db);
      if refused {
        Rollback();
        return Err("cannot schedule new futures"), order, kept, next;
      }
      Commit();
      kept := OutcomesOf(files, pool, order);
      if Honest(pool, files) {
        RowsNameFiles(db.reports, files, pool, order);
      }
      return Ok(sum), order, kept, next;
    }
  }

  function Counted(sum: Summary, status: Status, actions: nat, samples: nat): Summary {
    var parsed := sum.(parsed := sum.parsed + 1);
    match status
    case Imported => parsed.(imported := sum.imported + 1, rawActions := sum.rawActions + actions,
        equitySamples := sum.equitySamples + samples)
    case Skipped => parsed.(skipped := sum.skipped + 1)
    case Quarantined => parsed.(quarantined := sum.quarantined + 1)
  }

  function RawActions(r: Record): nat { r.rawActions }

  function EquitySamples(r: Record): nat { r.equitySamples }

  /** The manifest's figures, as a function of what was delivered in which order. */
  ghost function SummaryOf(scanned: nat, start: Reports, outs: seq<Outcome>): Summary {
    Summary(scanned, |outs|, Tally(start, outs, Imported), Tally(start, outs, Skipped), Tally(start, outs, Quarantined),
            ImportedSum(start, outs, RawActions), ImportedSum(start, outs, EquitySamples))
  }

  // ----- The manifest against the checklist

  ghost function RowCount(rows: seq<Row>, status: Status): nat {
    if rows == [] then 0 else RowCount(rows[1..], status) + if rows[0].status == status then 1 else 0
  }

  /** The raw actions that the imported rows show. */
  ghost function RowActions(rows: seq<Row>): nat {
    if rows == [] then 0
    else RowActions(rows[1..]) + match rows[0].counts
                                 case Some(c) => if rows[0].status == Imported then c.0 else 0
                                 case None => 0
  }

  ghost function RowSamples(rows: seq<Row>): nat {
    if rows == [] then 0
    else RowSamples(rows[1..]) + match rows[0].counts
                                 case Some(c) => if rows[0].status == Imported then c.1 else 0
                                 case None => 0
  }

  lemma {:induction false} RowFiguresSnoc(rows: seq<Row>, row: Row, status: Status)
    ensures RowCount(rows + [row], status) == RowCount(rows, status) + if row.status == status then 1 else 0
    ensures row.status != Imported ==>
      RowActions(rows + [row]) == RowActions(rows) && RowSamples(rows + [row]) == RowSamples(rows)
    ensures row.status == Imported && row.counts.Some? ==>
      && RowActions(rows + [row]) == RowActions(rows) + row.counts.value.0
      && RowSamples(rows + [row]) == RowSamples(rows) + row.counts.value.1
  {
    if rows == [] {
      assert rows + [row] == [row] && [row][1..] == [];
    } else {
      RowFiguresSnoc(rows[1..], row, status);
      assert (rows + [row])[1..] == rows[1..] + [row];
    }
  }

  /** The manifest counts the checklist's rows by status and adds up the figures that its imported rows show. */
  lemma {:induction false} ManifestMatchesRows(scanned: nat, start: Reports, outs: seq<Outcome>)
    ensures var rows, sum := RowsFor(start, outs), SummaryOf(scanned, start, outs);
      && sum.scanned == scanned && sum.parsed == |rows|
      && sum.imported == RowCount(rows, Imported) && sum.skipped == RowCount(rows, Skipped)
      && sum.quarantined == RowCount(rows, Quarantined)
      && sum.rawActions == RowActions(rows) && sum.equitySamples == RowSamples(rows)
  {
    if outs != [] {
      var most, last := outs[..|outs| - 1], outs[|outs| - 1];
      var before := AbsorbAll(start, most);
      ManifestMatchesRows(scanned, start, most);
      assert RowsFor(start, outs) == RowsFor(start, most) + [RowFor(before, last)];
      assert outs == most + [last];
      SummarySnoc(scanned, start, most, last);
      LastFigures(before, last);
      hide *;
      RowFiguresSnoc(RowsFor(start, most), RowFor(before, last), Imported);
      RowFiguresSnoc(RowsFor(start, most), RowFor(before, last), Skipped);
      RowFiguresSnoc(RowsFor(start, most), RowFor(before, last), Quarantined);
      CountedMeans(SummaryOf(scanned, start, most), Judge(before, last),
          if Judge(before, last) == Imported then last.record.value.rawActions else 0,
          if Judge(before, last) == Imported then last.record.value.equitySamples else 0);
    }
  }

  lemma LastFigures(before: Reports, o: Outcome)
    ensures RowFor(before, o).status == Judge(before, o) && (Judge(before, o) == Imported ==> o.record.Some?)
    ensures Judge(before, o) == Imported ==>
      && RowFor(before, o).counts.Some? && RowFor(before, o).counts.value.0 == o.record.value.rawActions
      && RowFor(before, o).counts.value.1 == o.record.value.equitySamples
  {
  }

  lemma CountedMeans(sum: Summary, status: Status, actions: nat, samples: nat)
    ensures var next := Counted(sum, status, actions, samples);
      && next.scanned == sum.scanned && next.parsed == sum.parsed + 1
      && next.imported == sum.imported + (if status == Imported then 1 else 0)
      && next.skipped == sum.skipped + (if status == Skipped then 1 else 0)
      && next.quarantined == sum.quarantined + (if status == Quarantined then 1 else 0)
      && next.rawActions == sum.rawActions + (if status == Imported then actions else 0)
      && next.equitySamples == sum.equitySamples + (if status == Imported then samples else 0)
  {
  }

  lemma SummarySnoc(scanned: nat, start: Reports, outs: seq<Outcome>, o: Outcome)
    ensures var status := Judge(AbsorbAll(start, outs), o);
            var actions := if status == Imported then o.record.value.rawActions else 0;
            var samples := if status == Imported then o.record.value.equitySamples else 0;
            SummaryOf(scanned, start, outs + [o]) == Counted(SummaryOf(scanned, start, outs), status, actions, samples)
  {
    AbsorbSnoc(start, outs, o);
    ImportedSumSnoc(start, outs, o, RawActions);
    ImportedSumSnoc(start, outs, o, EquitySamples);
  }

  lemma StoreAllSnoc(db: Tables, outs: seq<Outcome>, o: Outcome)
    ensures StoreAll(db, outs + [o]) == Store(StoreAll(db, outs), o)
    ensures RowsFor(db.reports, outs + [o]) == RowsFor(db.reports, outs) + [RowFor(AbsorbAll(db.reports, outs), o)]
    ensures Tally(db.reports, outs + [o], Imported)
         == Tally(db.reports, outs, Imported) + if Judge(AbsorbAll(db.reports, outs), o) == Imported then 1 else 0
  {
    assert (outs + [o])[..|outs|] == outs;
    AbsorbSnoc(db.reports, outs, o);
  }

  // ----- What a finished run promises

  ghost function FilesOf(rows: seq<Row>): seq<string> {
    seq(|rows|, k requires 0 <= k < |rows| => rows[k].file)
  }

  /** Every file has exactly one row, in whatever order the files complete. */
  lemma RowsNameFiles(reports: Reports, files: seq<string>, pool: Pool, order: seq<nat>)
    requires Unique(reports) && Honest(pool, files)
    requires Distinct(order) && |order| == |files| && forall k :: k in order ==> k < |files|
    ensures multiset(FilesOf(RowsFor(reports, OutcomesOf(files, pool, order)))) == multiset(files)
  {
    var outs := OutcomesOf(files, pool, order);
    var name := (i: nat) => if i < |files| then files[i] else [];
    FullOrderIsPermutation(order, |files|);
    ImageReordered(order, UpTo(|files|), name);
    assert Image(UpTo(|files|), name) == files;
    assert FilesOf(RowsFor(reports, outs)) == Image(order, name) by {
      SafeRowsAreStored(reports, outs);
      forall k | 0 <= k < |outs| ensures outs[k].file == name(order[k]) {
        assert order[k] in order;
      }
    }
  }

  /** The manifest adds up, every file has its one row, and a file is marked safe only if its hash is stored. */
  lemma FinishedRun(db: Tables, files: seq<string>, pool: Pool, order: seq<nat>)
    requires Sane(db) && Honest(pool, files)
    requires Distinct(order) && |order| == |files| && forall k :: k in order ==> k < |files|
    ensures var outs := OutcomesOf(files, pool, order);
            var sum := SummaryOf(|files|, db.reports, outs);
            && sum.imported + sum.skipped + sum.quarantined == |files|
            && |StoreAll(db, outs).reports| == |db.reports| + sum.imported
            && multiset(FilesOf(RowsFor(db.reports, outs))) == multiset(files)
            && Sane(StoreAll(db, outs))
            && forall row :: row in RowsFor(db.reports, outs) && row.safeToDelete ==>
              row.sha in StoreAll(db, outs).reports
  {
    var outs := OutcomesOf(files, pool, order);
    StoreAllIsSane(db, outs);
    TallyTotal(db.reports, outs);
    SafeRowsAreStored(db.reports, outs);
    ImportedIsGrowth(db.reports, outs);
    RowsNameFiles(db.reports, files, pool, order);
  }

  /** After a run the table holds a report for every point and grid it held before or was offered, one per pair, and
      the manifest counts as imported those that are new. */
  lemma RunPairs(db: Tables, files: seq<string>, pool: Pool, order: seq<nat>)
    requires Sane(db) && forall k :: k in order ==> k < |files|
    requires SameContent(db.reports, OutcomesOf(files, pool, order))
    ensures var outs := OutcomesOf(files, pool, order);
      && PairsOf(StoreAll(db, outs).reports) == PairsOf(db.reports) + OfferedPairs(outs)
      && |StoreAll(db, outs).reports| == |PairsOf(StoreAll(db, outs).reports)|
      && SummaryOf(|files|, db.reports, outs).imported == |OfferedPairs(outs) - PairsOf(db.reports)|
  {
    var outs := OutcomesOf(files, pool, order);
    StoreAllIsSane(db, outs);
    FinalPairs(db.reports, outs);
    var reports := StoreAll(db, outs).reports;
    OnePerPair(reports, reports.Keys);
    assert PairsOf(reports) == PairsAt(reports, reports.Keys);
  }

  ghost function PairsAt(reports: Reports, hashes: set<Sha>): set<(string, string)>
    requires hashes <= reports.Keys
  {
    set h | h in hashes :: (reports[h].point, reports[h].grid)
  }

  lemma {:induction false} OnePerPair(reports: Reports, hashes: set<Sha>)
    requires Unique(reports) && hashes <= reports.Keys
    ensures |PairsAt(reports, hashes)| == |hashes|
  {
    if hashes == {} {
      assert PairsAt(reports, hashes) == {};
    } else {
      var h :| h in hashes;
      var rest := hashes - {h};
      OnePerPair(reports, rest);
      var pair := (reports[h].point, reports[h].grid);
      forall k | k in rest ensures (reports[k].point, reports[k].grid) != pair {
        assert !SameKey(reports, h, k);
      }
      assert PairsAt(reports, hashes) == PairsAt(reports, rest) + {pair};
    }
  }

  /** Two finished runs over the same files, whatever their workers, windows, batches and
      completion orders, store the same keys and import the same number of reports. */
  lemma AnyTwoRunsAgree(start: Reports, files: seq<string>, pool: Pool, pool': Pool, order: seq<nat>, order': seq<nat>)
    requires Distinct(order) && |order| == |files| && forall k :: k in order ==> k < |files|
    requires Distinct(order') && |order'| == |files| && forall k :: k in order' ==> k < |files|
    requires forall i :: pool.deliver(i) == pool'.deliver(i)
    requires Unique(start) && Coherent(start, OutcomesOf(files, pool, order))
    ensures KeysOf(AbsorbAll(start, OutcomesOf(files, pool, order)))
      == KeysOf(AbsorbAll(start, OutcomesOf(files, pool', order')))
    ensures Tally(start, OutcomesOf(files, pool, order), Imported)
      == Tally(start, OutcomesOf(files, pool', order'), Imported)
  {
    var outs, outs' := OutcomesOf(files, pool, order), OutcomesOf(files, pool', order');
    FullOrderCoversAll(order, |files|);
    FullOrderCoversAll(order', |files|);
    forall k | 0 <= k < |outs| ensures outs[k] in outs' {
      assert order[k] in order && order[k] in order';
      var j :| 0 <= j < |order'| && order'[j] == order[k];
      assert outs'[j] == outs[k];
    }
    forall k | 0 <= k < |outs'| ensures outs'[k] in outs {
      assert order'[k] in order' && order'[k] in order;
      var j :| 0 <= j < |order| && order[j] == order'[k];
      assert outs[j] == outs'[k];
    }
    OrderIndependence(start, outs, outs');
  }

  // ----- Importing again after a run that broke off

  lemma CoherentLater(start: Reports, kept: seq<Outcome>, outs: seq<Outcome>)
    requires Coherent(start, outs) && forall o :: o in kept ==> o in outs
    ensures Coherent(start, kept) && Coherent(AbsorbAll(start, kept), outs)
  {
    Provenance(start, kept);
  }

  /** What was kept plus a complete import stores the same keys as the complete import alone, and the
      imports of both add up to those of the one. */
  lemma RestartCompletes(start: Reports, kept: seq<Outcome>, outs: seq<Outcome>)
    requires Unique(start) && Coherent(start, outs) && forall o :: o in kept ==> o in outs
    ensures KeysOf(AbsorbAll(AbsorbAll(start, kept), outs)) == KeysOf(AbsorbAll(start, outs))
    ensures Tally(start, kept, Imported) + Tally(AbsorbAll(start, kept), outs, Imported) == Tally(start, outs, Imported)
  {
    var between := AbsorbAll(start, kept);
    CoherentLater(start, kept, outs);
    AbsorbAllUnique(start, kept);
    FinalKeys(start, kept);
    FinalKeys(start, outs);
    FinalKeys(between, outs);
    assert OfferedKeys(kept) <= OfferedKeys(outs);
    ImportedCountsNewKeys(start, kept);
    ImportedCountsNewKeys(start, outs);
    ImportedCountsNewKeys(between, outs);
    hide *;
    NewKeysSplit(OfferedKeys(kept), OfferedKeys(outs), KeysOf(start));
  }

  lemma NewKeysSplit(kept: set<Key>, all: set<Key>, earlier: set<Key>)
    requires kept <= all
    ensures earlier + kept + all == earlier + all
    ensures |kept - earlier| + |all - (earlier + kept)| == |all - earlier|
  {
    assert all - earlier == (kept - earlier) + (all - (earlier + kept));
  }

  /** After an import that a refused submission broke off, importing the same files again completes it. */
  lemma RestartAfterRefusal(start: Reports, files: seq<string>, pool: Pool, pool': Pool,
                            order: seq<nat>, kept: seq<Outcome>, order': seq<nat>)
    requires (forall k :: k in order ==> k < |files|) && kept <= OutcomesOf(files, pool, order)
    requires Distinct(order') && |order'| == |files| && forall k :: k in order' ==> k < |files|
    requires forall i :: pool.deliver(i) == pool'.deliver(i)
    requires Unique(start) && Coherent(start, OutcomesOf(files, pool', order'))
    ensures var outs := OutcomesOf(files, pool', order');
            && KeysOf(AbsorbAll(AbsorbAll(start, kept), outs)) == KeysOf(AbsorbAll(start, outs))
            && Tally(start, kept, Imported) + Tally(AbsorbAll(start, kept), outs, Imported)
              == Tally(start, outs, Imported)
  {
    var outs := OutcomesOf(files, pool', order');
    FullOrderCoversAll(order', |files|);
    forall k | 0 <= k < |kept| ensures kept[k] in outs {
      assert order[k] in order && order[k] in order';
      var j :| 0 <= j < |order'| && order'[j] == order[k];
      assert kept[k] == outs[j];
    }
    RestartCompletes(start, kept, outs);
  }
}
