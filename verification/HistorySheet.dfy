/** The rolling ten-date sheet: cells by row and column, and the in-place moves of its date history. */
module HistorySheet {
  import opened Wrappers

  /** Cell values, as far as the exporter tells them apart; days are day numbers. */
  datatype Value = Blank | Date(day: int) | IsoText(day: int) | Number(lot: real) | Text(code: int)
    | Failure(symbol: int, message: int)

  type Cells = map<(int, int), Value>

  const HISTORY_DAYS: int := 10
  const AVERAGE_COLUMN: int := 3
  const HISTORY_FIRST_COLUMN: int := 4
  const PREVIOUS_HISTORY_FIRST_COLUMN: int := 3

  datatype Error = IncompleteOrUnordered | NotConsecutive | OccupiedColumnM | OlderThanHistory | ForeignAverageColumn
    | NotLegacyLayout | OccupiedHistoryColumns | RebuildFailed | NoSymbols | WrongModel

  function At(cells: Cells, row: int, col: int): Value {
    if (row, col) in cells then cells[(row, col)] else Blank
  }

  /** `_date_header`: a date, or text that is a strict ISO date. */
  function HeaderDate(v: Value): Option<int> {
    match v
    case Date(day) => Some(day)
    case IsoText(day) => Some(day)
    case _ => None
  }

  // ----- Reading the history

  function HeaderAt(cells: Cells, first: int, k: int): Option<int> {
    HeaderDate(At(cells, 1, first + k))
  }

  ghost predicate AllDates(cells: Cells, first: int) {
    forall k :: 0 <= k < HISTORY_DAYS ==> HeaderAt(cells, first, k).Some?
  }

  ghost predicate Ascending(cells: Cells, first: int) {
    AllDates(cells, first) && forall j, k :: 0 <= j < k < HISTORY_DAYS ==>
      HeaderAt(cells, first, j).value < HeaderAt(cells, first, k).value
  }

  /** The ten headers from column `first` on are the ten days from `day` on. */
  ghost predicate HoldsTen(cells: Cells, first: int, day: int) {
    forall k :: 0 <= k < HISTORY_DAYS ==> HeaderAt(cells, first, k) == Some(day + k)
  }

  /** The history at column `first`: ten dates from the given day on, or no date at all. */
  ghost predicate IsHistory(cells: Cells, first: int, history: Option<int>) {
    if history.Some? then HoldsTen(cells, first, history.value)
    else forall k :: 0 <= k < HISTORY_DAYS ==> HeaderAt(cells, first, k) == None
  }

  /** The ten header cells are the days from `day` on, as dates or as ISO text. */
  ghost predicate ShowsTen(cells: Cells, first: int, day: int) {
    forall c :: first <= c < first + 10 ==>
      At(cells, 1, c) == Date(day + c - first) || At(cells, 1, c) == IsoText(day + c - first)
  }

  ghost predicate ShowsNone(cells: Cells, first: int) {
    forall c :: first <= c < first + 10 ==> !At(cells, 1, c).Date? && !At(cells, 1, c).IsoText?
  }

  lemma HistoryMeans(cells: Cells, first: int, day: int)
    ensures IsHistory(cells, first, Some(day)) <==> ShowsTen(cells, first, day)
    ensures IsHistory(cells, first, None) <==> ShowsNone(cells, first)
  {
    if HoldsTen(cells, first, day) {
      forall c | first <= c < first + 10
        ensures At(cells, 1, c) == Date(day + c - first) || At(cells, 1, c) == IsoText(day + c - first)
      {
        assert HeaderAt(cells, first, c - first) == Some(day + (c - first));
      }
    }
    if IsHistory(cells, first, None) {
      forall c | first <= c < first + 10 ensures !At(cells, 1, c).Date? && !At(cells, 1, c).IsoText? {
        assert HeaderAt(cells, first, c - first) == None;
      }
    }
  }

  lemma HistoriesMean(cells: Cells, first: int, history: Option<int>)
    requires IsHistory(cells, first, history)
    ensures history == None <==> ShowsNone(cells, first)
    ensures forall day :: history == Some(day) <==> ShowsTen(cells, first, day)
  {
    HistoryMeans(cells, first, 0);
    forall day ensures history == Some(day) <==> ShowsTen(cells, first, day) {
      HistoryMeans(cells, first, day);
      OneHistory(cells, first, history, Some(day));
    }
    OneHistory(cells, first, history, None);
  }

  lemma OneHistory(cells: Cells, first: int, a: Option<int>, b: Option<int>)
    requires IsHistory(cells, first, a)
    ensures a == b <==> IsHistory(cells, first, b)
  {
    if IsHistory(cells, first, b) {
      assert HeaderAt(cells, first, 0) == if a.Some? then Some(a.value + 0) else None;
      assert HeaderAt(cells, first, 0) == if b.Some? then Some(b.value + 0) else None;
    }
  }

  /** Some header is a date, yet they are not ten consecutive ones. */
  ghost predicate Malformed(cells: Cells, first: int) {
    forall history :: !IsHistory(cells, first, history)
  }

  /** Ascending dates with a gap are told apart from every other mixture. */
  ghost function LayoutError(cells: Cells, first: int): Error {
    if Ascending(cells, first) && !HoldsTen(cells, first, HeaderAt(cells, first, 0).value) then NotConsecutive
    else IncompleteOrUnordered
  }

  /** A date in C1 marks the layout before the average column. */
  ghost predicate IsPrevious(saved: Cells) {
    HeaderDate(At(saved, 1, PREVIOUS_HISTORY_FIRST_COLUMN)).Some?
  }

  ghost predicate MigrationRefused(saved: Cells, maxRow: nat) {
    IsPrevious(saved) && (Malformed(saved, PREVIOUS_HISTORY_FIRST_COLUMN) || !ColumnIsBlank(saved, maxRow, 13))
  }

  ghost function MigrationError(saved: Cells): Error {
    if Malformed(saved, PREVIOUS_HISTORY_FIRST_COLUMN) then LayoutError(saved, PREVIOUS_HISTORY_FIRST_COLUMN)
    else OccupiedColumnM
  }

  /** The sheet a run works on: the saved one, moved when it has the previous layout. */
  ghost predicate IsStart(saved: Cells, start: Cells, maxRow: nat) {
    if IsPrevious(saved) then IsMigrated(saved, start, maxRow) else start == saved
  }

  // ----- Where a date's values live

  /** One of the ten days from `first` on. */
  predicate InTen(first: int, day: int) {
    first <= day < first + HISTORY_DAYS
  }

  /** The value of a row under a date, when the ten dates start at `first` in column `column`. */
  function Lot(cells: Cells, column: int, first: int, row: int, day: int): Option<Value> {
    if InTen(first, day) then Some(At(cells, row, column + day - first)) else None
  }

  // ----- The sheet

  class Sheet {
    var cells: Cells
    const maxRow: nat

    constructor (cells: Cells, maxRow: nat)
      ensures this.cells == cells && this.maxRow == maxRow
    {
      this.cells, this.maxRow := cells, maxRow;
    }

    method Set(row: int, col: int, v: Value)
      modifies this
      ensures forall r, c :: At(cells, r, c) == if r == row && c == col then v else At(old(cells), r, c)
    {
      cells := cells[(row, col) := v];
    }

    /** `_history_columns`: no date at all is no history; otherwise only ten consecutive dates will do. */
    method HistoryColumns(first: int) returns (result: Result<Option<int>, Error>)
      ensures result.Ok? ==> IsHistory(cells, first, result.value)
      ensures result == Ok(None) <==> ShowsNone(cells, first)
      ensures forall day :: result == Ok(Some(day)) <==> ShowsTen(cells, first, day)
      ensures result.Err? <==> Malformed(cells, first)
      ensures result == Err(NotConsecutive) <==>
        Ascending(cells, first) && !HoldsTen(cells, first, HeaderAt(cells, first, 0).value)
      ensures result.Err? ==> result.error == LayoutError(cells, first)
    {
      var headers: seq<Option<int>> := [];
      for k := 0 to HISTORY_DAYS
        invariant |headers| == k && forall j :: 0 <= j < k ==> headers[j] == HeaderAt(cells, first, j)
      {
        headers := headers + [HeaderDate(At(cells, 1, first + k))];
      }
      if forall k :: 0 <= k < HISTORY_DAYS ==> headers[k] == None {
        assert IsHistory(cells, first, None);
        HistoriesMean(cells, first, None);
        return Ok(None);
      }
      if exists k :: 0 <= k < HISTORY_DAYS && headers[k] == None {
        MixedIsMalformed(cells, first);
        NoHistoryMeans(cells, first);
        return Err(IncompleteOrUnordered);
      }
      var dates := seq(HISTORY_DAYS, k requires 0 <= k < HISTORY_DAYS => headers[k].value);
      DatesAreHeaders(cells, first, dates);
      hide HeaderAt, AllDates, HoldsTen, Ascending;
      if exists j, k :: 0 <= j < k < HISTORY_DAYS && dates[j] >= dates[k] {
        NoHistoryMeans(cells, first);
        return Err(IncompleteOrUnordered);
      }
      if exists k :: 0 <= k < HISTORY_DAYS - 1 && dates[k + 1] - dates[k] != 1 {
        NoHistoryMeans(cells, first);
        return Err(NotConsecutive);
      }
      StepsOfOne(dates, HISTORY_DAYS - 1);
      HistoriesMean(cells, first, Some(dates[0]));
      return Ok(Some(dates[0]));
    }

    /** One row of the move from C:L to D:M, right to left. */
    method ShiftRowRight(row: int)
      modifies this
      ensures forall r, c :: At(cells, r, c) == if r == row then ShiftedAt(old(cells), r, c) else At(old(cells), r, c)
    {
      ghost var before := cells;
      for col := PREVIOUS_HISTORY_FIRST_COLUMN + HISTORY_DAYS downto PREVIOUS_HISTORY_FIRST_COLUMN
        invariant forall r, c :: At(cells, r, c) == MovedAt(before, row, col, 13, -1, r, c)
      {
        Set(row, col + 1, At(cells, row, col));
      }
      Set(row, AVERAGE_COLUMN, Blank);
    }

    /** `_migrate_previous_layout`: true when a C:L history was moved, false when there is none. */
    method Migrate() returns (result: Result<bool, Error>)
      modifies this
      ensures result.Err? <==> MigrationRefused(old(cells), maxRow)
      ensures result.Err? ==> result.error == MigrationError(old(cells))
      ensures result.Ok? ==> result.value == IsPrevious(old(cells)) && IsStart(old(cells), cells, maxRow)
      ensures result == Ok(false) <==> !At(old(cells), 1, 3).Date? && !At(old(cells), 1, 3).IsoText?
      ensures result == Ok(true) ==> exists day :: ShowsTen(old(cells), 3, day)
      ensures result.Err? ==> cells == old(cells)
    {
      ghost var before := cells;
      if HeaderDate(At(cells, 1, PREVIOUS_HISTORY_FIRST_COLUMN)) == None {
        return Ok(false);
      }
      assert HeaderAt(cells, 3, 0).Some?;
      var history := HistoryColumns(PREVIOUS_HISTORY_FIRST_COLUMN);
      if history.Err? {
        return Err(history.error);
      }
      assert history.value.Some?;
      var target := PREVIOUS_HISTORY_FIRST_COLUMN + HISTORY_DAYS;
      if exists row :: 1 <= row <= maxRow && At(cells, row, target) != Blank {
        return Err(OccupiedColumnM);
      }
      for row := 1 to maxRow + 1
        invariant forall r, c :: At(cells, r, c) == if 1 <= r < row then ShiftedAt(before, r, c) else At(before, r, c)
      {
        ShiftRowRight(row);
      }
      return Ok(true);
    }

    /** One row of the rotation, left to right. */
    method RotateRow(row: int, newDate: int)
      modifies this
      ensures forall r, c :: At(cells, r, c) == if r == row then RotatedAt(old(cells), newDate, r, c)
        else At(old(cells), r, c)
    {
      ghost var before := cells;
      for col := HISTORY_FIRST_COLUMN to HISTORY_FIRST_COLUMN + HISTORY_DAYS - 1
        invariant forall r, c :: At(cells, r, c) == MovedAt(before, row, 3, col - 1, 1, r, c)
      {
        Set(row, col, At(cells, row, col + 1));
      }
      Set(row, HISTORY_FIRST_COLUMN + HISTORY_DAYS - 1, if row == 1 then Date(newDate) else Blank);
    }

    /** `_rotate_history`. */
    method Rotate(newDate: int)
      modifies this
      ensures IsRotated(old(cells), cells, maxRow, newDate)
    {
      ghost var before := cells;
      for row := 1 to maxRow + 1
        invariant forall r, c :: At(cells, r, c) == if 1 <= r < row then RotatedAt(before, newDate, r, c)
          else At(before, r, c)
      {
        RotateRow(row, newDate);
      }
    }

    /** One column of the rebuild: the header, then the values saved under its date, or blanks. */
    method FillColumn(col: int, day: int, saved: map<int, seq<Value>>)
      requires day in saved ==> |saved[day]| == maxRow - 1
      requires maxRow >= 1
      modifies this
      ensures forall r, c :: At(cells, r, c) == FilledAt(old(cells), maxRow + 1, col, day, saved, r, c)
    {
      ghost var before := cells;
      Set(1, col, Date(day));
      for row := 2 to maxRow + 1
        invariant forall r, c :: At(cells, r, c) == FilledAt(before, row, col, day, saved, r, c)
      {
        Set(row, col, if day in saved then saved[day][row - 2] else Blank);
      }
    }

    /** The columns of the old dates, saved by date. */
    method SaveColumns(previous: int) returns (saved: map<int, seq<Value>>)
      requires maxRow >= 1
      ensures forall day :: day in saved <==> InTen(previous, day)
      ensures forall day :: day in saved ==>
        saved[day] == ColumnOf(cells, maxRow, HISTORY_FIRST_COLUMN + day - previous)
    {
      saved := map[];
      for k := 0 to HISTORY_DAYS
        invariant forall day :: day in saved <==> InTen(previous, day) && day < previous + k
        invariant forall day :: day in saved ==>
          saved[day] == ColumnOf(cells, maxRow, HISTORY_FIRST_COLUMN + day - previous)
      {
        saved := saved[previous + k := ColumnOf(cells, maxRow, HISTORY_FIRST_COLUMN + k)];
      }
    }

    /** `_reset_history` from the ten dates at `previous` to the ten dates at `target`. */
    method Reset(target: int, previous: int, preserve: bool)
      requires maxRow >= 1
      modifies this
      ensures IsReset(old(cells), cells, maxRow, target, previous, preserve)
    {
      ghost var before := cells;
      var saved: map<int, seq<Value>> := map[];
      if preserve {
        saved := SaveColumns(previous);
      }
      for k := 0 to HISTORY_DAYS
        invariant forall r, c :: At(cells, r, c) == PartlyReset(before, maxRow, target, previous, preserve, k, r, c)
      {
        FillColumn(HISTORY_FIRST_COLUMN + k, target + k, saved);
      }
    }
  }

  lemma NoHistoryMeans(cells: Cells, first: int)
    requires Malformed(cells, first)
    ensures !ShowsNone(cells, first) && forall day :: !ShowsTen(cells, first, day)
  {
    forall day ensures !ShowsTen(cells, first, day) && !ShowsNone(cells, first) {
      HistoryMeans(cells, first, day);
      assert !IsHistory(cells, first, None);
    }
    HistoryMeans(cells, first, 0);
  }

  lemma {:induction false} StepsOfOne(dates: seq<int>, n: int)
    requires 0 <= n < |dates| && forall k :: 0 <= k < n ==> dates[k + 1] - dates[k] == 1
    ensures forall k :: 0 <= k <= n ==> dates[k] == dates[0] + k
  {
    if n > 0 {
      StepsOfOne(dates, n - 1);
      assert dates[n - 1 + 1] - dates[n - 1] == 1;
    }
  }

  lemma MixedIsMalformed(cells: Cells, first: int)
    requires exists k :: 0 <= k < HISTORY_DAYS && HeaderAt(cells, first, k) == None
    requires exists k :: 0 <= k < HISTORY_DAYS && HeaderAt(cells, first, k) != None
    ensures Malformed(cells, first) && !Ascending(cells, first)
  {
  }

  /** Once all headers are dates, order and consecutiveness are those of the dates. */
  lemma DatesAreHeaders(cells: Cells, first: int, dates: seq<int>)
    requires |dates| == HISTORY_DAYS
    requires forall k :: 0 <= k < HISTORY_DAYS ==> HeaderAt(cells, first, k) == Some(dates[k])
    ensures AllDates(cells, first) && HeaderAt(cells, first, 0) == Some(dates[0]) && !IsHistory(cells, first, None)
    ensures Ascending(cells, first) <==> forall j, k :: 0 <= j < k < HISTORY_DAYS ==> dates[j] < dates[k]
    ensures forall day :: HoldsTen(cells, first, day) <==> forall k :: 0 <= k < HISTORY_DAYS ==> dates[k] == day + k
  {
    if Ascending(cells, first) {
      forall j, k | 0 <= j < k < HISTORY_DAYS ensures dates[j] < dates[k] {
        assert HeaderAt(cells, first, j).value < HeaderAt(cells, first, k).value;
      }
    }
    forall day | HoldsTen(cells, first, day) ensures forall k :: 0 <= k < HISTORY_DAYS ==> dates[k] == day + k {
      assert forall k :: 0 <= k < HISTORY_DAYS ==> HeaderAt(cells, first, k) == Some(dates[k]);
    }
  }

  // ----- What the moves do, cell by cell

  function ShiftedAt(before: Cells, r: int, c: int): Value {
    if c == 3 then Blank else if 4 <= c <= 13 then At(before, r, c - 1) else At(before, r, c)
  }

  function RotatedAt(before: Cells, newDate: int, r: int, c: int): Value {
    if 4 <= c <= 12 then At(before, r, c + 1)
    else if c == 13 then (if r == 1 then Date(newDate) else Blank)
    else At(before, r, c)
  }

  function ResetAt(before: Cells, maxRow: nat, target: int, previous: int, preserve: bool, r: int, c: int): Value {
    if !(4 <= c <= 13) then At(before, r, c)
    else
      var day := target + c - 4;
      if r == 1 then Date(day)
      else if !(2 <= r <= maxRow) then At(before, r, c)
      else if preserve && InTen(previous, day) then At(before, r, 4 + day - previous)
      else Blank
  }

  /** In one row, columns strictly after `lo` up to `hi` hold what was `step` columns further. */
  function MovedAt(before: Cells, row: int, lo: int, hi: int, step: int, r: int, c: int): Value {
    if r == row && lo < c <= hi then At(before, r, c + step) else At(before, r, c)
  }

  /** Rows 2 up to `maxRow` of a column. */
  function ColumnOf(cells: Cells, maxRow: nat, col: int): (column: seq<Value>)
    requires maxRow >= 1
    ensures |column| == maxRow - 1
  {
    seq(maxRow - 1, i requires 0 <= i < maxRow - 1 => At(cells, i + 2, col))
  }

  /** One column being refilled, rows below `row` done. */
  function FilledAt(before: Cells, row: int, col: int, day: int, saved: map<int, seq<Value>>, r: int, c: int): Value {
    if c != col then At(before, r, c)
    else if r == 1 then Date(day)
    else if !(2 <= r < row) then At(before, r, c)
    else if day in saved && r - 2 < |saved[day]| then saved[day][r - 2]
    else Blank
  }

  function PartlyReset(before: Cells, maxRow: nat, target: int, previous: int, preserve: bool, k: int, r: int,
                       c: int): Value {
    if c < 4 + k then ResetAt(before, maxRow, target, previous, preserve, r, c) else At(before, r, c)
  }

  ghost predicate ColumnIsBlank(cells: Cells, maxRow: nat, col: int) {
    forall r :: 1 <= r <= maxRow ==> At(cells, r, col) == Blank
  }

  ghost predicate IsMigrated(before: Cells, after: Cells, maxRow: nat) {
    forall r, c :: At(after, r, c) == if 1 <= r <= maxRow then ShiftedAt(before, r, c) else At(before, r, c)
  }

  ghost predicate IsRotated(before: Cells, after: Cells, maxRow: nat, newDate: int) {
    forall r, c :: At(after, r, c) == if 1 <= r <= maxRow then RotatedAt(before, newDate, r, c) else At(before, r, c)
  }

  ghost predicate IsReset(before: Cells, after: Cells, maxRow: nat, target: int, previous: int, preserve: bool) {
    forall r, c :: At(after, r, c) == ResetAt(before, maxRow, target, previous, preserve, r, c)
  }

  // ----- The laws of the (row, date) view

  /** Moving C:L to D:M changes no value under any date, and nothing outside C:M. */
  lemma MigrationIsIdentity(before: Cells, after: Cells, maxRow: nat, first: int)
    requires IsMigrated(before, after, maxRow) && HoldsTen(before, 3, first) && maxRow >= 1
    ensures HoldsTen(after, 4, first) && ColumnIsBlank(after, maxRow, 3)
    ensures forall r, day :: 1 <= r <= maxRow ==> Lot(after, 4, first, r, day) == Lot(before, 3, first, r, day)
    ensures forall r, c :: c < 3 || c > 13 ==> At(after, r, c) == At(before, r, c)
  {
    forall k | 0 <= k < HISTORY_DAYS ensures HeaderAt(after, 4, k) == Some(first + k) {
      assert HeaderAt(before, 3, k) == Some(first + k);
    }
  }

  /** A rotation drops exactly the oldest date and adds a blank newest one. */
  lemma RotationDropsOldest(before: Cells, after: Cells, maxRow: nat, oldest: int, next: int, newest: int)
    requires next == oldest + 1 && newest == oldest + HISTORY_DAYS
    requires IsRotated(before, after, maxRow, newest) && HoldsTen(before, 4, oldest) && maxRow >= 1
    ensures HoldsTen(after, 4, next)
    ensures forall r, day :: 2 <= r <= maxRow ==>
      Lot(after, 4, next, r, day) == (if day == oldest then None else if day == newest then Some(Blank)
        else Lot(before, 4, oldest, r, day))
    ensures forall r, c :: c < 4 || c > 13 ==> At(after, r, c) == At(before, r, c)
  {
    forall k | 0 <= k < HISTORY_DAYS ensures HeaderAt(after, 4, k) == Some(next + k) {
      assert k + 1 < HISTORY_DAYS ==> HeaderAt(before, 4, k + 1) == Some(oldest + k + 1);
    }
  }

  /** A rebuild keeps exactly the values of the dates that survive; all other dates come up blank. */
  lemma RebuildKeepsSurvivors(before: Cells, after: Cells, maxRow: nat, target: int, previous: int, preserve: bool)
    requires IsReset(before, after, maxRow, target, previous, preserve)
    ensures HoldsTen(after, 4, target)
    ensures forall r, day :: 2 <= r <= maxRow && Lot(after, 4, target, r, day).Some? ==>
      Lot(after, 4, target, r, day) == if preserve && Lot(before, 4, previous, r, day).Some?
        then Lot(before, 4, previous, r, day) else Some(Blank)
    ensures forall r, c :: c < 4 || c > 13 ==> At(after, r, c) == At(before, r, c)
  {
  }

  /** `states[k + 1]` is `states[k]` rotated to the next day. */
  ghost predicate AreRotations(states: seq<Cells>, maxRow: nat, first: int) {
    && states != []
    && (forall k :: 0 <= k < |states| - 1 ==> IsRotated(states[k], states[k + 1], maxRow, first + HISTORY_DAYS + k))
  }

  lemma {:induction false} RotationsAt(states: seq<Cells>, maxRow: nat, first: int, g: nat, r: int, c: int)
    requires AreRotations(states, maxRow, first) && g < |states| && 1 <= r <= maxRow && 4 <= c <= 13
    ensures At(states[g], r, c) ==
      if c + g <= 13 then At(states[0], r, c + g) else if r == 1 then Date(first + g + c - 4) else Blank
    decreases g
  {
    if g > 0 {
      assert IsRotated(states[g - 1], states[g], maxRow, first + HISTORY_DAYS + g - 1);
      if c < 13 {
        RotationsAt(states, maxRow, first, g - 1, r, c + 1);
      }
    }
  }

  lemma {:induction false} RotationsLeaveTheRest(states: seq<Cells>, maxRow: nat, first: int, g: nat, r: int, c: int)
    requires AreRotations(states, maxRow, first) && g < |states| && !(1 <= r <= maxRow && 4 <= c <= 13)
    ensures At(states[g], r, c) == At(states[0], r, c)
    decreases g
  {
    if g > 0 {
      assert IsRotated(states[g - 1], states[g], maxRow, first + HISTORY_DAYS + g - 1);
      RotationsLeaveTheRest(states, maxRow, first, g - 1, r, c);
    }
  }

  /** `g` one-day rotations end where one preserving rebuild over a gap of `g` days ends: the same cells
      everywhere, header cells up to text dates that the rebuild rewrites as dates. */
  lemma RotationsAreOneRebuild(states: seq<Cells>, rebuilt: Cells, maxRow: nat, first: int, g: nat)
    requires AreRotations(states, maxRow, first) && g < |states| && maxRow >= 1 && HoldsTen(states[0], 4, first)
    requires IsReset(states[0], rebuilt, maxRow, first + g, first, true)
    ensures forall r, c :: r != 1 || c < 4 || c > 13 ==> At(states[g], r, c) == At(rebuilt, r, c)
    ensures HoldsTen(states[g], 4, first + g) && HoldsTen(rebuilt, 4, first + g)
  {
    forall r, c | r != 1 || c < 4 || c > 13 ensures At(states[g], r, c) == At(rebuilt, r, c) {
      if 1 <= r <= maxRow && 4 <= c <= 13 {
        RotationsAt(states, maxRow, first, g, r, c);
      } else {
        RotationsLeaveTheRest(states, maxRow, first, g, r, c);
      }
    }
    forall k | 0 <= k < HISTORY_DAYS ensures HeaderAt(states[g], 4, k) == Some(first + g + k) {
      RotationsAt(states, maxRow, first, g, 1, 4 + k);
      assert k + g < HISTORY_DAYS ==> HeaderAt(states[0], 4, k + g) == Some(first + k + g);
    }
  }
}
