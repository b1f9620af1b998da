/** One export run over the ten-date sheet: which cells are due, the write phase, and what the saved
    workbook then holds under every date. */
module HistoryExport {
  import opened HistorySheet
  import opened Sorting
  import opened Wrappers

  const AVERAGE_HEADER: Value := Text(0)
  const LEGACY_ACTUALIZATION_HEADER: Value := Text(1)

  /** The symbols in order of appearance and the rows of each. */
  datatype Listing = Listing(symbols: seq<int>, rows: map<int, seq<int>>)

  /** The symbol named in column A of a row; `names[0]` belongs to row 2. */
  function SymbolAt(names: seq<Option<int>>, r: int): Option<int> {
    if 2 <= r < 2 + |names| then names[r - 2] else None
  }

  ghost predicate IsListing(listing: Listing, names: seq<Option<int>>) {
    && (forall s :: s in listing.symbols <==> s in listing.rows)
    && (forall s :: s in listing.rows ==> listing.rows[s] != [] && forall r :: r in listing.rows[s] <==>
      SymbolAt(names, r) == Some(s))
    && (forall r :: SymbolAt(names, r).Some? ==> SymbolAt(names, r).value in listing.rows)
  }

  /** `_read_symbol_rows` after the names have been parsed. */
  method ReadSymbolRows(names: seq<Option<int>>) returns (listing: Listing)
    ensures IsListing(listing, names)
  {
    var symbols: seq<int>, rows: map<int, seq<int>> := [], map[];
    for k := 0 to |names|
      invariant forall s :: s in symbols <==> s in rows
      invariant forall s :: s in rows ==> rows[s] != [] && forall r :: r in rows[s] <==>
        r < 2 + k && SymbolAt(names, r) == Some(s)
      invariant forall r :: r < 2 + k && SymbolAt(names, r).Some? ==> SymbolAt(names, r).value in rows
    {
      if names[k].Some? {
        var s := names[k].value;
        if s !in rows {
          symbols := symbols + [s];
          rows := rows[s := []];
        }
        rows := rows[s := rows[s] + [k + 2]];
      }
    }
    listing := Listing(symbols, rows);
  }

  // ----- Which cells are due

  datatype Job = Job(day: int, symbols: seq<int>)

  predicate Due(jobs: seq<Job>, day: int, s: int) {
    exists k :: 0 <= k < |jobs| && jobs[k].day == day && s in jobs[k].symbols
  }

  predicate HasJob(jobs: seq<Job>, day: int) {
    exists k :: 0 <= k < |jobs| && jobs[k].day == day
  }

  /** `_symbols_listed_by`: some row lists the symbol by the day, or does not say when. */
  predicate Listed(cells: Cells, rows: seq<int>, day: int) {
    exists r :: r in rows && (At(cells, r, 2).Date? ==> At(cells, r, 2).day <= day)
  }

  predicate LacksNumber(cells: Cells, rows: seq<int>, col: int) {
    exists r :: r in rows && !At(cells, r, col).Number?
  }

  function ListedJob(cells: Cells, listing: Listing, day: int): Job {
    Job(day, Where(listing.symbols, (s: int) => s in listing.rows && Listed(cells, listing.rows[s], day)))
  }

  /** `_symbols_to_fill`: listed, and some row holds no number under the date. */
  function FillJob(cells: Cells, listing: Listing, day: int, col: int): Job {
    Job(day, Where(listing.symbols, (s: int) =>
      s in listing.rows && Listed(cells, listing.rows[s], day) && LacksNumber(cells, listing.rows[s], col)))
  }

  // ----- Results

  datatype Results = Results(values: map<(int, int), real>, errors: map<(int, int), int>)

  /** What goes into a cell: the lot, or the error text. */
  function Outcome(results: Results, s: int, day: int): Value {
    if (s, day) in results.values then Number(results.values[(s, day)])
    else if (s, day) in results.errors then Failure(s, results.errors[(s, day)])
    else Blank
  }

  function SourceValue(source: (int, int) -> Result<real, int>, s: int, day: int): Value {
    match source(s, day)
    case Ok(lot) => Number(lot)
    case Err(message) => Failure(s, message)
  }

  ghost predicate Computed(results: Results, jobs: seq<Job>, source: (int, int) -> Result<real, int>) {
    && (forall s, day :: Due(jobs, day, s) ==> Outcome(results, s, day) == SourceValue(source, s, day))
    && (results.errors != map[] <==> exists s, day :: Due(jobs, day, s) && source(s, day).Err?)
  }

  /** The calculation loop: every due (symbol, date) yields a lot or an error. */
  method Compute(jobs: seq<Job>, source: (int, int) -> Result<real, int>) returns (results: Results)
    ensures Computed(results, jobs, source)
  {
    var values: map<(int, int), real>, errors: map<(int, int), int> := map[], map[];
    for k := 0 to |jobs|
      invariant Reported(values, errors, source)
      invariant forall s, day :: Due(jobs[..k], day, s) <==> (s, day) in values || (s, day) in errors
    {
      var job := jobs[k];
      for i := 0 to |job.symbols|
        invariant Reported(values, errors, source)
        invariant forall s, day :: (s, day) in values || (s, day) in errors <==>
          Due(jobs[..k], day, s) || (day == job.day && s in job.symbols[..i])
      {
        var s := job.symbols[i];
        match source(s, job.day) {
          case Ok(lot) => values := values[(s, job.day) := lot];
          case Err(message) => errors := errors[(s, job.day) := message];
        }
        assert job.symbols[..i + 1] == job.symbols[..i] + [s];
      }
      assert job.symbols[..|job.symbols|] == job.symbols;
      DueStep(jobs, k);
    }
    assert jobs[..|jobs|] == jobs;
    results := Results(values, errors);
    if errors != map[] {
      var key :| key in errors;
      assert Due(jobs, key.1, key.0) && source(key.0, key.1).Err?;
    }
  }

  ghost predicate Reported(values: map<(int, int), real>, errors: map<(int, int), int>,
                           source: (int, int) -> Result<real, int>) {
    && (forall key :: key in values ==> source(key.0, key.1) == Ok(values[key]))
    && (forall key :: key in errors ==> source(key.0, key.1) == Err(errors[key]))
  }

  lemma DueStep(jobs: seq<Job>, k: nat)
    requires k < |jobs|
    ensures forall day, s :: Due(jobs[..k + 1], day, s) <==>
      Due(jobs[..k], day, s) || (day == jobs[k].day && s in jobs[k].symbols)
    ensures forall day :: HasJob(jobs[..k + 1], day) <==> HasJob(jobs[..k], day) || day == jobs[k].day
  {
    var more, fewer := jobs[..k + 1], jobs[..k];
    assert more[k] == jobs[k];
    forall day, s | Due(fewer, day, s) ensures Due(more, day, s) {
      var i :| 0 <= i < |fewer| && fewer[i].day == day && s in fewer[i].symbols;
      assert more[i] == fewer[i];
    }
    forall day | HasJob(fewer, day) ensures HasJob(more, day) {
      var i :| 0 <= i < |fewer| && fewer[i].day == day;
      assert more[i] == fewer[i];
    }
    forall day, s | Due(more, day, s) && !(day == jobs[k].day && s in jobs[k].symbols) ensures Due(fewer, day, s) {
      var i :| 0 <= i < |more| && more[i].day == day && s in more[i].symbols;
      assert fewer[i] == more[i];
    }
    forall day | HasJob(more, day) && day != jobs[k].day ensures HasJob(fewer, day) {
      var i :| 0 <= i < |more| && more[i].day == day;
      assert fewer[i] == more[i];
    }
  }

  // ----- The write phase

  /** A cell after the jobs have been written over the ten dates from `first`. */
  function WrittenAt(before: Cells, first: int, jobs: seq<Job>, names: seq<Option<int>>, results: Results,
                     headers: bool, r: int, c: int): Value {
    var day, symbol := first + c - HISTORY_FIRST_COLUMN, SymbolAt(names, r);
    if r == 1 && headers && HasJob(jobs, day) then Date(day)
    else if symbol.Some? && Due(jobs, day, symbol.value) then Outcome(results, symbol.value, day)
    else At(before, r, c)
  }

  /** One column after the symbols in `done` have been written. */
  function ColumnAt(before: Cells, col: int, job: Job, names: seq<Option<int>>, results: Results, done: set<int>,
                    r: int, c: int): Value {
    var symbol := SymbolAt(names, r);
    if c == col && symbol.Some? && symbol.value in done && symbol.value in job.symbols
    then Outcome(results, symbol.value, job.day)
    else At(before, r, c)
  }

  lemma SameSymbols(done: set<int>, listing: Listing)
    requires forall s :: s in done <==> s in listing.symbols
    requires forall s :: s in listing.symbols <==> s in listing.rows
    ensures done == listing.rows.Keys
  {
    var keys := listing.rows.Keys;
    forall s: int | s in done ensures s in keys {
      assert s in listing.rows;
    }
    forall s: int | s in keys ensures s in done {
      assert s in listing.rows;
    }
    assert done <= keys;
    assert keys <= done;
  }

  method WriteRows(sheet: Sheet, rows: seq<int>, col: int, v: Value)
    modifies sheet
    ensures forall r, c :: At(sheet.cells, r, c) == if c == col && r in rows then v else At(old(sheet.cells), r, c)
  {
    ghost var before := sheet.cells;
    for k := 0 to |rows|
      invariant forall r, c :: At(sheet.cells, r, c) == if c == col && r in rows[..k] then v else At(before, r, c)
    {
      sheet.Set(rows[k], col, v);
      assert rows[..k + 1] == rows[..k] + [rows[k]];
    }
    assert rows[..|rows|] == rows;
  }

  method WriteJob(sheet: Sheet, job: Job, col: int, listing: Listing, ghost names: seq<Option<int>>, results: Results)
    requires IsListing(listing, names)
    modifies sheet
    ensures forall r, c ::
      At(sheet.cells, r, c) == ColumnAt(old(sheet.cells), col, job, names, results, listing.rows.Keys, r, c)
  {
    ghost var before := sheet.cells;
    ghost var done: set<int> := {};
    for k := 0 to |listing.symbols|
      invariant forall s :: s in done <==> s in listing.symbols[..k]
      invariant forall r, c :: At(sheet.cells, r, c) == ColumnAt(before, col, job, names, results, done, r, c)
    {
      var s := listing.symbols[k];
      assert s in listing.symbols;
      if s in job.symbols {
        WriteRows(sheet, listing.rows[s], col, Outcome(results, s, job.day));
      }
      done := done + {s};
      assert listing.symbols[..k + 1] == listing.symbols[..k] + [s];
    }
    assert listing.symbols[..|listing.symbols|] == listing.symbols;
    SameSymbols(done, listing);
  }

  method WriteJobs(sheet: Sheet, first: int, jobs: seq<Job>, listing: Listing, ghost names: seq<Option<int>>,
                   results: Results, headers: bool)
    requires IsListing(listing, names)
    modifies sheet
    ensures forall r, c ::
      At(sheet.cells, r, c) == WrittenAt(old(sheet.cells), first, jobs, names, results, headers, r, c)
  {
    ghost var before := sheet.cells;
    for k := 0 to |jobs|
      invariant forall r, c ::
        At(sheet.cells, r, c) == WrittenAt(before, first, jobs[..k], names, results, headers, r, c)
    {
      var col := HISTORY_FIRST_COLUMN + jobs[k].day - first;
      if headers {
        sheet.Set(1, col, Date(jobs[k].day));
      }
      WriteJob(sheet, jobs[k], col, listing, names, results);
      DueStep(jobs, k);
      assert forall r, c ::
        At(sheet.cells, r, c) == WrittenAt(before, first, jobs[..k + 1], names, results, headers, r, c);
    }
    assert jobs[..|jobs|] == jobs;
  }

  // ----- Headers and averages

  /** Text headers that are dates become dates. */
  function NormalAt(before: Cells, r: int, c: int): Value {
    var v := At(before, r, c);
    if r == 1 && 4 <= c <= 13 && v.IsoText? then Date(v.day) else v
  }

  method NormaliseHeaders(sheet: Sheet)
    modifies sheet
    ensures forall r, c :: At(sheet.cells, r, c) == NormalAt(old(sheet.cells), r, c)
  {
    ghost var before := sheet.cells;
    for col := HISTORY_FIRST_COLUMN to HISTORY_FIRST_COLUMN + HISTORY_DAYS
      invariant forall r, c :: At(sheet.cells, r, c) == if c < col then NormalAt(before, r, c) else At(before, r, c)
    {
      var header := At(sheet.cells, 1, col);
      if header.IsoText? {
        sheet.Set(1, col, Date(header.day));
      }
    }
  }

  function Numbers(values: seq<Value>): (numbers: seq<real>)
    ensures |numbers| <= |values|
  {
    if values == [] then []
    else Numbers(values[..|values| - 1]) + if values[|values| - 1].Number? then [values[|values| - 1].lot] else []
  }

  /** Rounding toward zero. */
  function Truncated(x: real): int {
    if x >= 0.0 then x.Floor else -(-x).Floor
  }

  function Scaled(a: real, w: real): real {
    a * w
  }

  function Multiple(q: int, step: int): real {
    Scaled(q as real, step as real)
  }

  /** `_average_lot`: the mean of the numbers, rounded toward zero to the step; blanks and errors do not count. */
  function Average(values: seq<Value>, step: int): Value
    requires step > 0
  {
    var numbers := Numbers(values);
    if numbers == [] then Blank
    else Number(Multiple(Truncated(Total(numbers) / (|numbers| as real) / (step as real)), step))
  }

  lemma Unscaled(mean: real, w: real)
    requires w > 0.0
    ensures Scaled(mean / w, w) == mean
  {
  }

  lemma ScaledGrows(a: real, b: real, w: real)
    requires w > 0.0
    ensures a <= b ==> Scaled(a, w) <= Scaled(b, w)
    ensures a < b ==> Scaled(a, w) < Scaled(b, w)
  {
  }

  function RowHistory(cells: Cells, r: int): (values: seq<Value>)
    ensures |values| == HISTORY_DAYS
  {
    seq(HISTORY_DAYS, k requires 0 <= k < HISTORY_DAYS => At(cells, r, HISTORY_FIRST_COLUMN + k))
  }

  function AveragedAt(before: Cells, names: seq<Option<int>>, step: int, r: int, c: int): Value
    requires step > 0
  {
    if c != AVERAGE_COLUMN then At(before, r, c)
    else if r == 1 then AVERAGE_HEADER
    else if SymbolAt(names, r).Some? then Average(RowHistory(before, r), step)
    else At(before, r, c)
  }

  /** The averages of the rows of the symbols in `done` stand in column C. */
  function PartlyAveragedAt(before: Cells, names: seq<Option<int>>, step: int, done: set<int>, r: int, c: int): Value
    requires step > 0
  {
    if r != 1 && c == AVERAGE_COLUMN && !(SymbolAt(names, r).Some? && SymbolAt(names, r).value in done)
    then At(before, r, c)
    else AveragedAt(before, names, step, r, c)
  }

  /** `_write_averages`. */
  method WriteAverages(sheet: Sheet, listing: Listing, ghost names: seq<Option<int>>, step: int)
    requires IsListing(listing, names) && step > 0
    modifies sheet
    ensures forall r, c :: At(sheet.cells, r, c) == AveragedAt(old(sheet.cells), names, step, r, c)
  {
    ghost var before := sheet.cells;
    sheet.Set(1, AVERAGE_COLUMN, AVERAGE_HEADER);
    ghost var done: set<int> := {};
    for k := 0 to |listing.symbols|
      invariant forall s :: s in done <==> s in listing.symbols[..k]
      invariant forall r, c :: At(sheet.cells, r, c) == PartlyAveragedAt(before, names, step, done, r, c)
    {
      var s := listing.symbols[k];
      assert s in listing.symbols;
      WriteRowAverages(sheet, listing.rows[s], before, names, step, done, s);
      done := done + {s};
      assert listing.symbols[..k + 1] == listing.symbols[..k] + [s];
    }
    assert listing.symbols[..|listing.symbols|] == listing.symbols;
    SameSymbols(done, listing);
  }

  method WriteRowAverages(sheet: Sheet, rows: seq<int>, ghost before: Cells, ghost names: seq<Option<int>>, step: int,
                          ghost done: set<int>, ghost s: int)
    requires step > 0 && forall r :: r in rows <==> SymbolAt(names, r) == Some(s)
    requires forall r, c :: At(sheet.cells, r, c) == PartlyAveragedAt(before, names, step, done, r, c)
    modifies sheet
    ensures forall r, c :: At(sheet.cells, r, c) == PartlyAveragedAt(before, names, step, done + {s}, r, c)
  {
    ghost var start := sheet.cells;
    for k := 0 to |rows|
      invariant forall r, c :: At(sheet.cells, r, c) == if r in rows[..k] && c == AVERAGE_COLUMN
        then Average(RowHistory(before, r), step) else At(start, r, c)
    {
      assert rows[k] in rows;
      assert RowHistory(sheet.cells, rows[k]) == RowHistory(before, rows[k]);
      sheet.Set(rows[k], AVERAGE_COLUMN, Average(RowHistory(sheet.cells, rows[k]), step));
      assert rows[..k + 1] == rows[..k] + [rows[k]];
    }
    assert rows[..|rows|] == rows;
  }

  // ----- The plan

  datatype Action = Initialize | Rebuild | Rotate | Retry

  datatype Plan = Plan(action: Action, first: int, jobs: seq<Job>)

  /** A symbol is to be computed for a date: it is listed, and the date is new, or all dates are to be
      replaced, or one of its rows holds no number there. */
  ghost predicate Wanted(cells: Cells, listing: Listing, history: Option<int>, force: bool, s: int, day: int) {
    && s in listing.rows && Listed(cells, listing.rows[s], day)
    && (force || history == None || !InTen(history.value, day)
      || LacksNumber(cells, listing.rows[s], HISTORY_FIRST_COLUMN + day - history.value))
  }

  ghost predicate JobsAre(jobs: seq<Job>, cells: Cells, listing: Listing, history: Option<int>, force: bool, lo: int,
                          hi: int) {
    && (forall day, s :: Due(jobs, day, s) <==> lo <= day < hi && Wanted(cells, listing, history, force, s, day))
    && (forall day :: HasJob(jobs, day) ==> lo <= day < hi)
  }

  method JobsFor(cells: Cells, listing: Listing, history: Option<int>, force: bool, lo: int, hi: int)
    returns (jobs: seq<Job>)
    requires lo <= hi && forall s :: s in listing.symbols <==> s in listing.rows
    ensures JobsAre(jobs, cells, listing, history, force, lo, hi)
    ensures NoIdleJobs(jobs, history, force)
  {
    jobs := [];
    for day := lo to hi
      invariant JobsAre(jobs, cells, listing, history, force, lo, day) && NoIdleJobs(jobs, history, force)
    {
      var kept := !force && history.Some? && InTen(history.value, day);
      var job := if kept then FillJob(cells, listing, day, HISTORY_FIRST_COLUMN + day - history.value)
        else ListedJob(cells, listing, day);
      JobSymbols(job, cells, listing, history, force, day);
      if kept && job.symbols == [] {
        JobsSkip(jobs, cells, listing, history, force, lo, day);
      } else {
        JobsGrow(jobs, job, cells, listing, history, force, lo, day);
        jobs := jobs + [job];
      }
    }
  }

  /** A date that stays gets a job only when something is missing there. */
  ghost predicate NoIdleJobs(jobs: seq<Job>, history: Option<int>, force: bool) {
    forall k :: 0 <= k < |jobs| && !force && history.Some? && InTen(history.value, jobs[k].day) ==>
      jobs[k].symbols != []
  }

  lemma JobsSkip(jobs: seq<Job>, cells: Cells, listing: Listing, history: Option<int>, force: bool, lo: int, day: int)
    requires JobsAre(jobs, cells, listing, history, force, lo, day) && lo <= day
    requires forall s :: !Wanted(cells, listing, history, force, s, day)
    ensures JobsAre(jobs, cells, listing, history, force, lo, day + 1)
  {
    hide Wanted, Due, HasJob;
  }

  lemma JobsGrow(jobs: seq<Job>, job: Job, cells: Cells, listing: Listing, history: Option<int>, force: bool, lo: int,
                 day: int)
    requires JobsAre(jobs, cells, listing, history, force, lo, day) && lo <= day && job.day == day
    requires forall s :: s in job.symbols <==> Wanted(cells, listing, history, force, s, day)
    ensures JobsAre(jobs + [job], cells, listing, history, force, lo, day + 1)
  {
    var more := jobs + [job];
    DueStep(more, |jobs|);
    assert more[..|jobs|] == jobs && more[..|jobs| + 1] == more;
    hide Wanted, Due, HasJob;
    forall d, s ensures Due(more, d, s) <==> lo <= d < day + 1 && Wanted(cells, listing, history, force, s, d) {
      assert Due(jobs, d, s) <==> lo <= d < day && Wanted(cells, listing, history, force, s, d);
    }
    forall d | HasJob(more, d) ensures lo <= d < day + 1 {
      assert HasJob(jobs, d) ==> lo <= d < day;
    }
  }

  lemma JobSymbols(job: Job, cells: Cells, listing: Listing, history: Option<int>, force: bool, day: int)
    requires forall s :: s in listing.symbols <==> s in listing.rows
    requires job == if !force && history.Some? && InTen(history.value, day)
      then FillJob(cells, listing, day, HISTORY_FIRST_COLUMN + day - history.value) else ListedJob(cells, listing, day)
    ensures job.day == day && forall s :: s in job.symbols <==> Wanted(cells, listing, history, force, s, day)
  {
    hide Listed, LacksNumber;
    var p := if !force && history.Some? && InTen(history.value, day)
      then (s: int) => s in listing.rows && Listed(cells, listing.rows[s], day)
        && LacksNumber(cells, listing.rows[s], HISTORY_FIRST_COLUMN + day - history.value)
      else (s: int) => s in listing.rows && Listed(cells, listing.rows[s], day);
    assert job.symbols == Where(listing.symbols, p);
    forall s | Wanted(cells, listing, history, force, s, day) ensures s in job.symbols {
      WhereHas(listing.symbols, p, s);
    }
  }

  /** `_averages_stale`. */
  predicate AveragesStale(cells: Cells, listing: Listing, step: int)
    requires step > 0
  {
    || At(cells, 1, AVERAGE_COLUMN) != AVERAGE_HEADER
    || exists s, r ::
       s in listing.rows && r in listing.rows[s] && At(cells, r, AVERAGE_COLUMN) != Average(RowHistory(cells, r), step)
  }

  /** `_validate_legacy_history`: C = base lot, D = actualization date, E:M empty. */
  predicate IsLegacy(cells: Cells, maxRow: nat) {
    && At(cells, 1, AVERAGE_COLUMN) != Blank && At(cells, 1, HISTORY_FIRST_COLUMN) == LEGACY_ACTUALIZATION_HEADER
    && forall r, c :: 1 <= r <= maxRow && 5 <= c <= 13 ==> At(cells, r, c) == Blank
  }

  function LegacyError(cells: Cells): Error {
    if At(cells, 1, AVERAGE_COLUMN) == Blank || At(cells, 1, HISTORY_FIRST_COLUMN) != LEGACY_ACTUALIZATION_HEADER
    then NotLegacyLayout
    else OccupiedHistoryColumns
  }

  /** Which kind of move brings the sheet up to date. */
  function ActionFor(history: Option<int>, today: int, rebuild: bool): Action {
    if history == None then Initialize
    else if rebuild then Rebuild
    else if InTen(history.value, today) then Retry
    else if today == history.value + HISTORY_DAYS then Rotate
    else Rebuild
  }

  /** The dates stay while today is among them; otherwise they end today. */
  function FirstFor(history: Option<int>, today: int, rebuild: bool): int {
    if history.Some? && !rebuild && InTen(history.value, today) then history.value else today - HISTORY_DAYS + 1
  }

  ghost predicate PlanFits(plan: Plan, cells: Cells, listing: Listing, history: Option<int>, today: int,
                           rebuild: bool) {
    && plan.action == ActionFor(history, today, rebuild)
    && plan.first == FirstFor(history, today, rebuild)
    && JobsAre(plan.jobs, cells, listing, history, rebuild, plan.first, plan.first + HISTORY_DAYS)
  }

  /** Why no plan is made: the wrong model, foreign data in column C, a run before the newest date, or
      a sheet that holds neither a history nor the legacy layout. */
  ghost predicate PlanRefused(cells: Cells, maxRow: nat, history: Option<int>, today: int, rebuild: bool,
                              sameModel: bool) {
    if history == None then !IsLegacy(cells, maxRow)
    else
      || (!sameModel && !rebuild)
      || At(cells, 1, AVERAGE_COLUMN) !in {Blank, AVERAGE_HEADER}
      || (today < history.value + HISTORY_DAYS - 1 && (rebuild || !InTen(history.value, today)))
  }

  /** The first of those reasons that applies. */
  function PlanError(cells: Cells, history: Option<int>, rebuild: bool, sameModel: bool): Error {
    if history == None then LegacyError(cells)
    else if !sameModel && !rebuild then WrongModel
    else if At(cells, 1, AVERAGE_COLUMN) !in {Blank, AVERAGE_HEADER} then ForeignAverageColumn
    else OlderThanHistory
  }

  /** Today's date is there, no listed cell lacks a number, the averages are right and nothing moved. */
  ghost predicate NothingToDo(cells: Cells, listing: Listing, history: Option<int>, today: int, rebuild: bool,
                              migrated: bool, step: int)
    requires step > 0
  {
    && history.Some? && !rebuild && !migrated && InTen(history.value, today) && !AveragesStale(cells, listing, step)
    && forall day, s :: InTen(history.value, day) ==> !Wanted(cells, listing, history, false, s, day)
  }

  /** Which dates the run will show and which cells it computes; None when there is nothing to do. */
  method MakePlan(cells: Cells, maxRow: nat, listing: Listing, history: Option<int>, today: int, rebuild: bool,
                  sameModel: bool, migrated: bool, step: int) returns (result: Result<Option<Plan>, Error>)
    requires step > 0 && forall s :: s in listing.symbols <==> s in listing.rows
    ensures result.Err? <==> PlanRefused(cells, maxRow, history, today, rebuild, sameModel)
    ensures result.Err? ==> result.error == PlanError(cells, history, rebuild, sameModel)
    ensures (history == None ==> (result.Err? <==>
        || At(cells, 1, 3) == Blank || At(cells, 1, 4) != LEGACY_ACTUALIZATION_HEADER
        || exists r, c :: 1 <= r <= maxRow && 5 <= c <= 13 && At(cells, r, c) != Blank))
    ensures (result == Err(NotLegacyLayout) <==>
        history == None && (At(cells, 1, 3) == Blank || At(cells, 1, 4) != LEGACY_ACTUALIZATION_HEADER))
    ensures result == Err(WrongModel) <==> history.Some? && !sameModel && !rebuild
    ensures (result == Err(ForeignAverageColumn) <==>
        history.Some? && (sameModel || rebuild) && At(cells, 1, 3) !in {Blank, AVERAGE_HEADER})
    ensures (result == Err(OlderThanHistory) <==>
        && history.Some? && (sameModel || rebuild) && At(cells, 1, 3) in {Blank, AVERAGE_HEADER}
        && if rebuild then today < history.value + 9 else today < history.value)
    ensures (result.Ok? && result.value.Some? ==> var plan := result.value.value;
        && (plan.action == Initialize <==> history == None)
        && (plan.action == Retry <==> history.Some? && !rebuild && history.value <= today <= history.value + 9)
        && (plan.action == Rotate <==> history.Some? && !rebuild && today == history.value + 10)
        && (plan.action == Retry ==> plan.first == history.value)
        && (plan.action != Retry ==> plan.first + 9 == today))
    ensures result.Ok? && result.value.Some? ==> PlanFits(result.value.value, cells, listing, history, today, rebuild)
    ensures result == Ok(None) <==>
      !PlanRefused(cells, maxRow, history, today, rebuild, sameModel)
        && NothingToDo(cells, listing, history, today, rebuild, migrated, step)
  {
    LegacyMeans(cells, maxRow);
    hide Listed, LacksNumber, AveragesStale, IsLegacy, Wanted, JobsAre;
    var target := today - HISTORY_DAYS + 1;
    if history == None {
      if !IsLegacy(cells, maxRow) {
        return Err(LegacyError(cells));
      }
      var jobs := JobsFor(cells, listing, history, rebuild, target, target + HISTORY_DAYS);
      return Ok(Some(Plan(Initialize, target, jobs)));
    }
    var oldest := history.value;
    if !sameModel && !rebuild {
      return Err(WrongModel);
    }
    if At(cells, 1, AVERAGE_COLUMN) !in {Blank, AVERAGE_HEADER} {
      return Err(ForeignAverageColumn);
    }
    var present := InTen(oldest, today);
    if rebuild {
      if today < oldest + HISTORY_DAYS - 1 {
        return Err(OlderThanHistory);
      }
      target := if present then oldest else target;
      var jobs := JobsFor(cells, listing, history, true, target, target + HISTORY_DAYS);
      return Ok(Some(Plan(Rebuild, target, jobs)));
    }
    if present {
      var jobs := JobsFor(cells, listing, history, false, oldest, oldest + HISTORY_DAYS);
      NothingDue(jobs, cells, listing, history, oldest);
      if jobs == [] && !migrated && !AveragesStale(cells, listing, step) {
        return Ok(None);
      }
      return Ok(Some(Plan(Retry, oldest, jobs)));
    }
    var gap := today - (oldest + HISTORY_DAYS - 1);
    if gap <= 0 {
      return Err(OlderThanHistory);
    }
    var jobs := JobsFor(cells, listing, history, false, target, target + HISTORY_DAYS);
    return Ok(Some(Plan(if gap == 1 then Rotate else Rebuild, target, jobs)));
  }

  lemma LegacyMeans(cells: Cells, maxRow: nat)
    ensures (IsLegacy(cells, maxRow) <==>
        && At(cells, 1, 3) != Blank && At(cells, 1, 4) == LEGACY_ACTUALIZATION_HEADER
        && !exists r, c :: 1 <= r <= maxRow && 5 <= c <= 13 && At(cells, r, c) != Blank)
  {
  }

  lemma NothingDue(jobs: seq<Job>, cells: Cells, listing: Listing, history: Option<int>, oldest: int)
    requires history == Some(oldest) && JobsAre(jobs, cells, listing, history, false, oldest, oldest + HISTORY_DAYS)
    requires NoIdleJobs(jobs, history, false)
    ensures jobs == [] <==> forall day, s :: InTen(oldest, day) ==> !Wanted(cells, listing, history, false, s, day)
  {
    hide Wanted;
    if jobs == [] {
      forall day, s | InTen(oldest, day) ensures !Wanted(cells, listing, history, false, s, day) {
        assert !Due(jobs, day, s);
      }
    } else {
      assert HasJob(jobs, jobs[0].day);
      var s := jobs[0].symbols[0];
      assert Due(jobs, jobs[0].day, s);
      assert InTen(oldest, jobs[0].day) && Wanted(cells, listing, history, false, s, jobs[0].day);
    }
  }

  // ----- The run

  /** What a cell under `day` must hold afterwards: a due one its result, any other what it held under
      that date before, if the date was there and is not being replaced. */
  ghost function FinalValue(start: Cells, names: seq<Option<int>>, listing: Listing, history: Option<int>,
                            rebuild: bool,
                            source: (int, int) -> Result<real, int>, r: int, day: int): Value
  {
    var symbol := SymbolAt(names, r);
    if symbol.Some? && Wanted(start, listing, history, rebuild, symbol.value, day)
    then SourceValue(source, symbol.value, day)
    else if !rebuild && history.Some? && InTen(history.value, day)
    then At(start, r, HISTORY_FIRST_COLUMN + day - history.value)
    else Blank
  }

  /** The moves of one plan: the ten columns now stand for the plan's dates. */
  method ApplyMoves(sheet: Sheet, plan: Plan, history: Option<int>, today: int, rebuild: bool)
    requires sheet.maxRow >= 1 && IsHistory(sheet.cells, HISTORY_FIRST_COLUMN, history)
    requires PlanMoves(plan, history, today, rebuild)
    modifies sheet
    ensures Moved(old(sheet.cells), sheet.cells, sheet.maxRow, plan.first, history, rebuild)
  {
    ghost var before := sheet.cells;
    match plan.action {
      case Initialize =>
        sheet.Reset(plan.first, plan.first, false);
        RebuildKeepsSurvivors(before, sheet.cells, sheet.maxRow, plan.first, plan.first, false);
      case Rebuild =>
        sheet.Reset(plan.first, history.value, !rebuild);
        RebuildKeepsSurvivors(before, sheet.cells, sheet.maxRow, plan.first, history.value, !rebuild);
      case Rotate =>
        sheet.Rotate(today);
        RotationDropsOldest(before, sheet.cells, sheet.maxRow, history.value, plan.first, today);
      case Retry =>
    }
  }

  ghost predicate PlanMoves(plan: Plan, history: Option<int>, today: int, rebuild: bool) {
    && (plan.action == Initialize <==> history == None)
    && (plan.action == Rotate ==> !rebuild && plan.first == history.value + 1 && today == history.value + HISTORY_DAYS)
    && (plan.action == Retry ==> !rebuild && plan.first == history.value)
  }

  /** Under each of the new dates every row holds what it held under it before, or is blank. */
  ghost predicate Moved(before: Cells, after: Cells, maxRow: nat, first: int, history: Option<int>, rebuild: bool) {
    && HoldsTen(after, HISTORY_FIRST_COLUMN, first)
    && (forall r, c :: c < 4 || c > 13 ==> At(after, r, c) == At(before, r, c))
    && (forall r, day :: 2 <= r <= maxRow && InTen(first, day) ==>
        Lot(after, HISTORY_FIRST_COLUMN, first, r, day) ==
          Some(if !rebuild && history.Some? && InTen(history.value, day)
            then At(before, r, HISTORY_FIRST_COLUMN + day - history.value) else Blank))
  }

  /** The saved sheet after a run, in terms of the sheet it started from. */
  ghost predicate Exported(start: Cells, after: Cells, maxRow: nat, names: seq<Option<int>>, listing: Listing,
                           first: int,
                           history: Option<int>, rebuild: bool, source: (int, int) -> Result<real, int>, step: int)
    requires step > 0
  {
    && (forall c :: 4 <= c <= 13 ==> At(after, 1, c) == Date(first + c - HISTORY_FIRST_COLUMN))
    && (forall r, day :: 2 <= r <= maxRow && InTen(first, day) ==>
        Lot(after, HISTORY_FIRST_COLUMN, first, r, day)
          == Some(FinalValue(start, names, listing, history, rebuild, source, r, day)))
    && At(after, 1, AVERAGE_COLUMN) == AVERAGE_HEADER
    && (forall r :: 2 <= r <= maxRow && SymbolAt(names, r).Some? ==>
      At(after, r, AVERAGE_COLUMN) == Average(RowHistory(after, r), step))
    && (forall r, c :: c < 3 || c > 13 ==> At(after, r, c) == At(start, r, c))
  }

  /** The steps of the write phase, one after the other. */
  ghost predicate Steps(moved: Cells, written: Cells, normal: Cells, final: Cells, plan: Plan, names: seq<Option<int>>,
                        results: Results, headers: bool, step: int)
    requires step > 0
  {
    && (forall r, c :: At(written, r, c) == WrittenAt(moved, plan.first, plan.jobs, names, results, headers, r, c))
    && (forall r, c :: At(normal, r, c) == NormalAt(written, r, c))
    && (forall r, c :: At(final, r, c) == AveragedAt(normal, names, step, r, c))
  }

  lemma StepsAre(moved: Cells, written: Cells, normal: Cells, final: Cells, plan: Plan, names: seq<Option<int>>,
                 results: Results, headers: bool, step: int)
    requires step > 0
    requires forall r, c :: At(written, r, c) == WrittenAt(moved, plan.first, plan.jobs, names, results, headers, r, c)
    requires forall r, c :: At(normal, r, c) == NormalAt(written, r, c)
    requires forall r, c :: At(final, r, c) == AveragedAt(normal, names, step, r, c)
    ensures Steps(moved, written, normal, final, plan, names, results, headers, step)
  {
  }

  lemma StepsExport(start: Cells, moved: Cells, written: Cells, normal: Cells, final: Cells, maxRow: nat,
                    names: seq<Option<int>>,
                    listing: Listing, plan: Plan, history: Option<int>, rebuild: bool,
                    source: (int, int) -> Result<real, int>,
                    results: Results, headers: bool, step: int)
    requires step > 0 && Moved(start, moved, maxRow, plan.first, history, rebuild)
    requires JobsAre(plan.jobs, start, listing, history, rebuild, plan.first, plan.first + HISTORY_DAYS)
    requires Computed(results, plan.jobs, source)
    requires Steps(moved, written, normal, final, plan, names, results, headers, step)
    ensures Exported(start, final, maxRow, names, listing, plan.first, history, rebuild, source, step)
  {
    hide Due, HasJob, Wanted, Average, Outcome;
    forall c | 4 <= c <= 13 ensures At(final, 1, c) == Date(plan.first + c - HISTORY_FIRST_COLUMN) {
      assert HeaderAt(moved, HISTORY_FIRST_COLUMN, c - HISTORY_FIRST_COLUMN)
        == Some(plan.first + c - HISTORY_FIRST_COLUMN);
      assert At(normal, 1, c) == NormalAt(written, 1, c);
    }
    forall r, day | 2 <= r <= maxRow && InTen(plan.first, day)
      ensures Lot(final, HISTORY_FIRST_COLUMN, plan.first, r, day)
        == Some(FinalValue(start, names, listing, history, rebuild, source, r, day))
    {
      CellExports(start, moved, written, normal, final, maxRow, names, listing, plan, history, rebuild, source, results,
          headers, step, r, day);
    }
    forall r, c | c < 3 || c > 13 ensures At(final, r, c) == At(start, r, c) {
      var day := plan.first + c - HISTORY_FIRST_COLUMN;
      assert !HasJob(plan.jobs, day) && forall s :: !Due(plan.jobs, day, s);
    }
    forall r | 2 <= r <= maxRow && SymbolAt(names, r).Some?
      ensures At(final, r, AVERAGE_COLUMN) == Average(RowHistory(final, r), step)
    {
      assert RowHistory(final, r) == RowHistory(normal, r);
    }
    assert At(final, 1, AVERAGE_COLUMN) == AVERAGE_HEADER;
  }

  lemma CellExports(start: Cells, moved: Cells, written: Cells, normal: Cells, final: Cells, maxRow: nat,
                    names: seq<Option<int>>,
                    listing: Listing, plan: Plan, history: Option<int>, rebuild: bool,
                    source: (int, int) -> Result<real, int>,
                    results: Results, headers: bool, step: int, r: int, day: int)
    requires step > 0 && Moved(start, moved, maxRow, plan.first, history, rebuild)
    requires JobsAre(plan.jobs, start, listing, history, rebuild, plan.first, plan.first + HISTORY_DAYS)
    requires Computed(results, plan.jobs, source)
    requires Steps(moved, written, normal, final, plan, names, results, headers, step)
    requires 2 <= r <= maxRow && InTen(plan.first, day)
    ensures Lot(final, HISTORY_FIRST_COLUMN, plan.first, r, day)
      == Some(FinalValue(start, names, listing, history, rebuild, source, r, day))
  {
    hide Due, HasJob, Wanted, Average, Outcome;
    var c := HISTORY_FIRST_COLUMN + day - plan.first;
    var symbol := SymbolAt(names, r);
    assert At(final, r, c) == At(normal, r, c) == At(written, r, c);
    assert At(written, r, c) == WrittenAt(moved, plan.first, plan.jobs, names, results, headers, r, c);
    assert Lot(moved, HISTORY_FIRST_COLUMN, plan.first, r, day) == Some(At(moved, r, c));
    if symbol.Some? {
      assert Due(plan.jobs, day, symbol.value) <==> Wanted(start, listing, history, rebuild, symbol.value, day);
    }
  }

  const MINUTE_FILES_MODEL: string := "LOT_MODEL_V1"

  /** `recorded_model`: a workbook without the marker holds values of the first model. */
  function Recorded(marker: Option<string>): string {
    if marker == None then MINUTE_FILES_MODEL else marker.value
  }

  /** The workbook holds values of the model, either by its marker or, without one, as the first model. */
  ghost predicate OfModel(marker: Option<string>, model: string) {
    marker == Some(model) || (marker == None && model == MINUTE_FILES_MODEL)
  }

  lemma RecordedMeans(marker: Option<string>, model: string)
    ensures Recorded(marker) == model <==> OfModel(marker, model)
  {
  }

  class Workbook {
    var saved: Cells
    var marker: Option<string>
    const maxRow: nat

    constructor (saved: Cells, marker: Option<string>, maxRow: nat)
      ensures this.saved == saved && this.marker == marker && this.maxRow == maxRow
    {
      this.saved, this.marker, this.maxRow := saved, marker, maxRow;
    }

    /** `run_export` on the sheet's cells: any error, and a run with nothing to do, leaves the saved
        workbook as it was; any other run records its model.  `start` is the sheet after the layout migration. */
    method Export(names: seq<Option<int>>, today: int, rebuild: bool, model: string, step: int,
                  source: (int, int) -> Result<real, int>)
      returns (result: Result<Option<Plan>, Error>, ghost start: Cells, ghost history: Option<int>,
               ghost listing: Listing)
      requires maxRow >= 1 && |names| == maxRow - 1 && step > 0
      modifies this
      ensures (result.Err? || result.value == None) ==> saved == old(saved) && marker == old(marker)
      ensures result.Ok? && result.value.Some? ==> marker == Some(model)
      ensures !SomeNamed(names) ==> result == Err(NoSymbols)
      ensures SomeNamed(names) && MigrationRefused(old(saved), maxRow) ==> result == Err(MigrationError(old(saved)))
      ensures SomeNamed(names) && !MigrationRefused(old(saved), maxRow) ==> IsStart(old(saved), start, maxRow)
      ensures SomeNamed(names) && !MigrationRefused(old(saved), maxRow) && Malformed(start, HISTORY_FIRST_COLUMN) ==>
        result == Err(LayoutError(start, HISTORY_FIRST_COLUMN))
      ensures SomeNamed(names) && !MigrationRefused(old(saved), maxRow) && !Malformed(start, HISTORY_FIRST_COLUMN) ==>
        && IsListing(listing, names) && IsHistory(start, HISTORY_FIRST_COLUMN, history)
        && (result.Err? <==>
            || PlanRefused(start, maxRow, history, today, rebuild, OfModel(old(marker), model))
            || (rebuild && SomeFails(start, listing, history, FirstFor(history, today, rebuild), source)))
        && (result.Err? && PlanRefused(start, maxRow, history, today, rebuild, OfModel(old(marker), model)) ==>
              result.error == PlanError(start, history, rebuild, OfModel(old(marker), model)))
        && (result.Err? && !PlanRefused(start, maxRow, history, today, rebuild, OfModel(old(marker), model)) ==>
          result.error == RebuildFailed)
        && (result == Ok(None) <==>
            && !PlanRefused(start, maxRow, history, today, rebuild, OfModel(old(marker), model))
            && NothingToDo(start, listing, history, today, rebuild, IsPrevious(old(saved)), step))
      ensures result.Ok? && result.value.Some? ==> PlanFits(result.value.value, start, listing, history, today, rebuild)
      ensures result.Ok? && result.value.Some? ==>
        Exported(start, saved, maxRow, names, listing, result.value.value.first, history, rebuild, source, step)
    {
      start, history := saved, None;
      hide *;
      var listed := ReadSymbolRows(names);
      listing := listed;
      NamedIsListed(listed, names);
      if listed.symbols == [] {
        return Err(NoSymbols), start, history, listing;
      }
      var sheet := new Sheet(saved, maxRow);
      var migrated := sheet.Migrate();
      if migrated.Err? {
        return Err(migrated.error), start, history, listing;
      }
      start := sheet.cells;
      var found := sheet.HistoryColumns(HISTORY_FIRST_COLUMN);
      if found.Err? {
        return Err(found.error), start, history, listing;
      }
      var oldest := found.value;
      history := oldest;
      ListingCovers(listed, names);
      var sameModel := Recorded(marker) == model;
      RecordedMeans(marker, model);
      var planned := MakePlan(sheet.cells, maxRow, listed, oldest, today, rebuild, sameModel, migrated.value, step);
      if planned.Err? || planned.value == None {
        IdleIsNoRebuild(start, listed, oldest, today, rebuild, migrated.value, step);
        return planned, start, history, listing;
      }
      var plan := planned.value.value;
      PlanFitsMoves(plan, sheet.cells, listed, oldest, today, rebuild);
      var results := Compute(plan.jobs, source);
      FailuresAre(results, plan, sheet.cells, listed, oldest, today, rebuild, source);
      if rebuild && results.errors != map[] {
        return Err(RebuildFailed), start, history, listing;
      }
      ApplyMoves(sheet, plan, oldest, today, rebuild);
      ghost var moved := sheet.cells;
      var headers := plan.action == Initialize || plan.action == Rebuild;
      WriteJobs(sheet, plan.first, plan.jobs, listed, names, results, headers);
      ghost var written := sheet.cells;
      NormaliseHeaders(sheet);
      ghost var normal := sheet.cells;
      WriteAverages(sheet, listed, names, step);
      StepsAre(moved, written, normal, sheet.cells, plan, names, results, headers, step);
      StepsExport(start, moved, written, normal, sheet.cells, maxRow, names, listed, plan, oldest, rebuild, source,
          results, headers, step);
      saved, marker := sheet.cells, Some(model);
      return Ok(Some(plan)), start, history, listing;
    }
  }

  lemma PlanFitsMoves(plan: Plan, cells: Cells, listing: Listing, history: Option<int>, today: int, rebuild: bool)
    requires PlanFits(plan, cells, listing, history, today, rebuild)
    ensures PlanMoves(plan, history, today, rebuild)
    ensures JobsAre(plan.jobs, cells, listing, history, rebuild, plan.first, plan.first + HISTORY_DAYS)
    ensures plan.first == FirstFor(history, today, rebuild)
  {
  }

  lemma IdleIsNoRebuild(cells: Cells, listing: Listing, history: Option<int>, today: int, rebuild: bool, migrated: bool,
                        step: int)
    requires step > 0
    ensures NothingToDo(cells, listing, history, today, rebuild, migrated, step) ==> !rebuild
  {
  }

  ghost predicate SomeNamed(names: seq<Option<int>>) {
    exists k :: 0 <= k < |names| && names[k].Some?
  }

  lemma NamedIsListed(listing: Listing, names: seq<Option<int>>)
    requires IsListing(listing, names)
    ensures listing.symbols == [] <==> !SomeNamed(names)
  {
    if SomeNamed(names) {
      var k :| 0 <= k < |names| && names[k].Some?;
      assert SymbolAt(names, k + 2) == names[k];
      var s := names[k].value;
      assert s in listing.rows;
      assert s in listing.symbols;
      assert |listing.symbols| > 0;
    }
    if listing.symbols != [] {
      var s := listing.symbols[0];
      assert s in listing.symbols && s in listing.rows;
      var r := listing.rows[s][0];
      assert r in listing.rows[s] && SymbolAt(names, r) == Some(s);
    }
  }

  lemma ListingCovers(listing: Listing, names: seq<Option<int>>)
    requires IsListing(listing, names)
    ensures forall s :: s in listing.symbols <==> s in listing.rows
  {
  }

  /** In a rebuild the run fails exactly when some wanted symbol's source call fails. */
  lemma FailuresAre(results: Results, plan: Plan, cells: Cells, listing: Listing, history: Option<int>, today: int,
                    rebuild: bool,
                    source: (int, int) -> Result<real, int>)
    requires Computed(results, plan.jobs, source)
    requires JobsAre(plan.jobs, cells, listing, history, rebuild, plan.first, plan.first + HISTORY_DAYS)
    ensures rebuild ==> (results.errors != map[] <==> SomeFails(cells, listing, history, plan.first, source))
  {
    hide Wanted, Due;
    if rebuild {
      if results.errors != map[] {
        var s, day :| Due(plan.jobs, day, s) && source(s, day).Err?;
        assert InTen(plan.first, day) && Wanted(cells, listing, history, true, s, day);
      }
      if SomeFails(cells, listing, history, plan.first, source) {
        var day, s :| InTen(plan.first, day) && Wanted(cells, listing, history, true, s, day) && source(s, day).Err?;
        assert Due(plan.jobs, day, s);
      }
    }
  }

  ghost predicate SomeFails(start: Cells, listing: Listing, history: Option<int>, first: int,
                            source: (int, int) -> Result<real, int>) {
    exists day, s :: InTen(first, day) && Wanted(start, listing, history, true, s, day) && source(s, day).Err?
  }

  // ----- What a reader of the workbook can rely on

  /** A lot that survives is kept: unless all dates are rebuilt, a number under a date that stays keeps
      its value when every row of its symbol has a number there. */
  lemma NumbersSurvive(start: Cells, after: Cells, maxRow: nat, names: seq<Option<int>>, listing: Listing, first: int,
                       history: Option<int>, source: (int, int) -> Result<real, int>, step: int, r: int, day: int)
    requires step > 0 && Exported(start, after, maxRow, names, listing, first, history, false, source, step)
    requires 2 <= r <= maxRow && history.Some? && InTen(history.value, day) && InTen(first, day)
    requires IsListing(listing, names) && SymbolAt(names, r).Some?
    requires forall q :: SymbolAt(names, q) == SymbolAt(names, r) ==>
      At(start, q, HISTORY_FIRST_COLUMN + day - history.value).Number?
    ensures Lot(after, HISTORY_FIRST_COLUMN, first, r, day) == Lot(start, HISTORY_FIRST_COLUMN, history.value, r, day)
  {
    var s := SymbolAt(names, r).value;
    assert !LacksNumber(start, listing.rows[s], HISTORY_FIRST_COLUMN + day - history.value);
    assert Lot(after, HISTORY_FIRST_COLUMN, first, r, day)
      == Some(FinalValue(start, names, listing, history, false, source, r, day));
  }

  /** After any run every listed symbol has, under each of the ten dates, a lot or an error in all its rows. */
  lemma ListedCellsAreAnswered(start: Cells, after: Cells, maxRow: nat, names: seq<Option<int>>, listing: Listing,
                               first: int,
                               history: Option<int>, rebuild: bool, source: (int, int) -> Result<real, int>, step: int,
                               r: int, day: int)
    requires step > 0 && Exported(start, after, maxRow, names, listing, first, history, rebuild, source, step)
    requires 2 <= r <= maxRow && InTen(first, day) && IsListing(listing, names) && SymbolAt(names, r).Some?
    requires Listed(start, listing.rows[SymbolAt(names, r).value], day)
    ensures var v := Lot(after, HISTORY_FIRST_COLUMN, first, r, day).value; v.Number? || v.Failure?
  {
    var s := SymbolAt(names, r).value;
    assert r in listing.rows[s];
    assert Lot(after, HISTORY_FIRST_COLUMN, first, r, day)
      == Some(FinalValue(start, names, listing, history, rebuild, source, r, day));
    if history.Some? && InTen(history.value, day) && !At(start, r, HISTORY_FIRST_COLUMN + day - history.value).Number? {
      assert LacksNumber(start, listing.rows[s], HISTORY_FIRST_COLUMN + day - history.value);
    }
  }

  // ----- Running the export again

  /** Every source call of the run yields a lot. */
  ghost predicate AllAnswered(start: Cells, listing: Listing, history: Option<int>, rebuild: bool, first: int,
                              source: (int, int) -> Result<real, int>) {
    forall day, s :: InTen(first, day) && Wanted(start, listing, history, rebuild, s, day) ==> source(s, day).Ok?
  }

  /** Then all rows of a listed symbol hold numbers under each of the ten dates. */
  lemma AnsweredCellsAreNumbers(start: Cells, after: Cells, maxRow: nat, names: seq<Option<int>>, listing: Listing,
                                first: int, history: Option<int>, rebuild: bool,
                                source: (int, int) -> Result<real, int>,
                                step: int, r: int, day: int)
    requires step > 0 && Exported(start, after, maxRow, names, listing, first, history, rebuild, source, step)
    requires AllAnswered(start, listing, history, rebuild, first, source) && InTen(first, day)
    requires 2 <= r <= maxRow && IsListing(listing, names) && SymbolAt(names, r).Some?
    requires Listed(start, listing.rows[SymbolAt(names, r).value], day)
    ensures At(after, r, HISTORY_FIRST_COLUMN + day - first).Number?
  {
    var s := SymbolAt(names, r).value;
    assert r in listing.rows[s];
    assert Lot(after, HISTORY_FIRST_COLUMN, first, r, day)
      == Some(FinalValue(start, names, listing, history, rebuild, source, r, day));
    if history.Some? && InTen(history.value, day) && !At(start, r, HISTORY_FIRST_COLUMN + day - history.value).Number? {
      assert LacksNumber(start, listing.rows[s], HISTORY_FIRST_COLUMN + day - history.value);
    }
  }

  lemma SameListing(before: Cells, after: Cells, listing: Listing, again: Listing, names: seq<Option<int>>,
                    s: int, day: int)
    requires IsListing(listing, names) && IsListing(again, names) && s in again.rows
    requires forall r :: At(after, r, 2) == At(before, r, 2)
    ensures s in listing.rows && (Listed(after, again.rows[s], day) <==> Listed(before, listing.rows[s], day))
  {
    var r := again.rows[s][0];
    assert r in again.rows[s] && SymbolAt(names, r) == Some(s);
    assert forall r :: r in again.rows[s] <==> r in listing.rows[s];
  }

  /** A cell that the run wanted holds a number only if its source call gave one. */
  lemma IdleMeansAnswered(start: Cells, after: Cells, maxRow: nat, names: seq<Option<int>>, listing: Listing,
                          first: int, history: Option<int>, rebuild: bool, source: (int, int) -> Result<real, int>,
                          step: int, again: Listing, day: int, s: int)
    requires step > 0 && maxRow == |names| + 1 && IsListing(listing, names) && IsListing(again, names)
    requires Exported(start, after, maxRow, names, listing, first, history, rebuild, source, step)
    requires InTen(first, day) && Wanted(start, listing, history, rebuild, s, day)
    requires !Wanted(after, again, Some(first), false, s, day)
    ensures source(s, day).Ok?
  {
    var r := listing.rows[s][0];
    assert r in listing.rows[s] && SymbolAt(names, r) == Some(s);
    assert s in again.rows && r in again.rows[s];
    SameListing(start, after, listing, again, names, s, day);
    hide Listed;
    assert !LacksNumber(after, again.rows[s], HISTORY_FIRST_COLUMN + day - first);
    assert Lot(after, HISTORY_FIRST_COLUMN, first, r, day)
      == Some(FinalValue(start, names, listing, history, rebuild, source, r, day));
  }

  /** The saved sheet leaves nothing to do for a run on the same day, if every source call gave a lot,
      and only then. */
  lemma SecondRunIsIdle(start: Cells, after: Cells, maxRow: nat, names: seq<Option<int>>, listing: Listing,
                        first: int, history: Option<int>, today: int, rebuild: bool,
                        source: (int, int) -> Result<real, int>, step: int, again: Listing)
    requires step > 0 && maxRow == |names| + 1 && IsListing(listing, names) && IsListing(again, names)
    requires Exported(start, after, maxRow, names, listing, first, history, rebuild, source, step)
    requires first == FirstFor(history, today, rebuild)
    ensures !PlanRefused(after, maxRow, Some(first), today, false, true)
    ensures NothingToDo(after, again, Some(first), today, false, false, step) <==>
      AllAnswered(start, listing, history, rebuild, first, source)
  {
    hide Average, Listed, LacksNumber, FinalValue, Wanted;
    if AllAnswered(start, listing, history, rebuild, first, source) {
      forall day, s | InTen(first, day) ensures !Wanted(after, again, Some(first), false, s, day) {
        NothingWanted(start, after, maxRow, names, listing, first, history, rebuild, source, step, again, day, s);
      }
    }
    if NothingToDo(after, again, Some(first), today, false, false, step) {
      forall day, s | InTen(first, day) && Wanted(start, listing, history, rebuild, s, day) ensures source(s, day).Ok? {
        IdleMeansAnswered(start, after, maxRow, names, listing, first, history, rebuild, source, step, again, day, s);
      }
    }
    forall s, r | s in again.rows && r in again.rows[s]
      ensures At(after, r, AVERAGE_COLUMN) == Average(RowHistory(after, r), step)
    {
      assert SymbolAt(names, r) == Some(s);
    }
  }

  lemma NothingWanted(start: Cells, after: Cells, maxRow: nat, names: seq<Option<int>>, listing: Listing,
                      first: int, history: Option<int>, rebuild: bool, source: (int, int) -> Result<real, int>,
                      step: int, again: Listing, day: int, s: int)
    requires step > 0 && maxRow == |names| + 1 && IsListing(listing, names) && IsListing(again, names)
    requires Exported(start, after, maxRow, names, listing, first, history, rebuild, source, step)
    requires AllAnswered(start, listing, history, rebuild, first, source) && InTen(first, day)
    ensures !Wanted(after, again, Some(first), false, s, day)
  {
    if s in again.rows {
      SameListing(start, after, listing, again, names, s, day);
      if Listed(start, listing.rows[s], day) {
        hide Listed, Exported, AllAnswered;
        forall r | r in again.rows[s] ensures At(after, r, HISTORY_FIRST_COLUMN + day - first).Number? {
          AnsweredCellsAreNumbers(start, after, maxRow, names, listing, first, history, rebuild, source, step, r, day);
        }
      }
    }
  }

  /** Two exports on one day: the second finds nothing to do, and leaves the workbook alone, exactly when
      the first had a lot for every cell it wanted. */
  method ExportTwice(book: Workbook, names: seq<Option<int>>, today: int, rebuild: bool, model: string, step: int,
                     source: (int, int) -> Result<real, int>)
    returns (result: Result<Option<Plan>, Error>, second: Result<Option<Plan>, Error>, ghost start: Cells,
             ghost history: Option<int>, ghost listing: Listing, ghost between: Cells)
    requires book.maxRow >= 1 && |names| == book.maxRow - 1 && step > 0
    modifies book
    ensures result.Ok? && result.value.Some? ==>
      Exported(start, between, book.maxRow, names, listing, result.value.value.first, history, rebuild, source, step)
    ensures result.Ok? && result.value.Some? ==> second.Ok? && book.marker == Some(model)
    ensures result.Ok? && result.value.Some? ==>
      (second == Ok(None) <==> AllAnswered(start, listing, history, rebuild, result.value.value.first, source))
    ensures second == Ok(None) ==> book.saved == between
  {
    result, start, history, listing := book.Export(names, today, rebuild, model, step, source);
    between := book.saved;
    hide Exported, AllAnswered, NothingToDo, PlanRefused, IsListing, SomeNamed, IsHistory, Malformed, SomeFails;
    ghost var start', history', again;
    second, start', history', again := book.Export(names, today, false, model, step, source);
    if result.Ok? && result.value.Some? {
      var first := result.value.value.first;
      SavedIsWellFormed(start, between, book.maxRow, names, listing, first, history, rebuild, source, step);
      OneHistory(between, HISTORY_FIRST_COLUMN, Some(first), history');
      SecondRunIsIdle(start, between, book.maxRow, names, listing, first, history, today, rebuild, source, step, again);
    }
  }

  lemma SavedIsWellFormed(start: Cells, after: Cells, maxRow: nat, names: seq<Option<int>>, listing: Listing,
                          first: int, history: Option<int>, rebuild: bool, source: (int, int) -> Result<real, int>,
                          step: int)
    requires step > 0 && Exported(start, after, maxRow, names, listing, first, history, rebuild, source, step)
    ensures !IsPrevious(after) && !MigrationRefused(after, maxRow)
    ensures IsHistory(after, HISTORY_FIRST_COLUMN, Some(first)) && !Malformed(after, HISTORY_FIRST_COLUMN)
  {
    forall k | 0 <= k < HISTORY_DAYS ensures HeaderAt(after, HISTORY_FIRST_COLUMN, k) == Some(first + k) {
      assert At(after, 1, HISTORY_FIRST_COLUMN + k) == Date(first + k);
    }
    assert IsHistory(after, HISTORY_FIRST_COLUMN, Some(first));
  }
}
