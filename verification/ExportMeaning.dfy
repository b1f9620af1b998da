/** What an export leaves in the workbook, in terms of the cells it started from. */
module ExportMeaning {
  import opened HistoryExport
  import opened HistorySheet
  import opened Sorting
  import opened Wrappers

  // ----- The average column

  /** The positions that hold a number. */
  ghost function NumberCells(v: seq<Value>): set<nat> {
    set k: nat | k < |v| && v[k].Number?
  }

  /** The sum of the cells, where only numbers have a value. */
  ghost function LotSum(v: seq<Value>): real {
    if v == [] then 0.0 else LotSum(v[1..]) + if v[0].Number? then v[0].lot else 0.0
  }

  function IsNumber(): Value -> bool { (v: Value) => v.Number? }

  lemma {:induction false} NumbersAtPositions(v: seq<Value>)
    ensures |Numbers(v)| == |Positions(v, IsNumber())|
    ensures forall i :: 0 <= i < |Numbers(v)| ==>
      Positions(v, IsNumber())[i] < |v| && v[Positions(v, IsNumber())[i]] == Number(Numbers(v)[i])
  {
    if v != [] {
      NumbersAtPositions(v[..|v| - 1]);
    }
  }

  /** The numbers that are averaged are those of the number cells, one for each and in their order. */
  lemma NumbersAreCells(v: seq<Value>) returns (at: seq<nat>)
    ensures |at| == |Numbers(v)| == |NumberCells(v)| && Sorting.Ascending(at)
    ensures forall i :: 0 <= i < |at| ==> at[i] < |v| && v[at[i]] == Number(Numbers(v)[i])
    ensures forall k: nat :: k in at <==> k < |v| && v[k].Number?
  {
    at := Positions(v, IsNumber());
    NumbersAtPositions(v);
    PositionsAre(v, IsNumber());
    PositionsAscend(v, IsNumber());
    AscendingCounts(at, NumberCells(v));
    hide Numbers, Positions, Sorting.Ascending, NumberCells;
  }

  lemma {:induction false} LotSumSnoc(v: seq<Value>, x: Value)
    ensures LotSum(v + [x]) == LotSum(v) + if x.Number? then x.lot else 0.0
  {
    if v != [] {
      LotSumSnoc(v[1..], x);
      assert (v + [x])[1..] == v[1..] + [x];
    }
  }

  lemma {:induction false} TotalIsLotSum(v: seq<Value>)
    ensures Total(Numbers(v)) == LotSum(v)
  {
    if v != [] {
      var n := |v| - 1;
      TotalIsLotSum(v[..n]);
      LotSumSnoc(v[..n], v[n]);
      assert v == v[..n] + [v[n]];
      if v[n].Number? {
        assert Numbers(v)[..|Numbers(v)| - 1] == Numbers(v[..n]);
      } else {
        assert Numbers(v) == Numbers(v[..n]);
      }
    }
  }

  ghost function Times(q: int, step: int, n: int): real {
    (q * step * n) as real
  }

  /** The shown average is a multiple of the step: the largest one whose product with the number of number
      cells is at most their sum, or the smallest one at least it when the sum is negative; without a number
      cell nothing is shown. */
  lemma AverageIsFloored(v: seq<Value>, step: int) returns (q: int)
    requires step > 0
    ensures NumberCells(v) == {} ==> Average(v, step) == Blank
    ensures NumberCells(v) != {} ==> Average(v, step) == Number((q * step) as real)
    ensures (NumberCells(v) != {} && LotSum(v) >= 0.0
        ==> Times(q, step, |NumberCells(v)|) <= LotSum(v) < Times(q + 1, step, |NumberCells(v)|))
    ensures (NumberCells(v) != {} && LotSum(v) < 0.0
        ==> Times(q - 1, step, |NumberCells(v)|) < LotSum(v) <= Times(q, step, |NumberCells(v)|))
  {
    var n := |NumberCells(v)|;
    AverageOfSum(v, step);
    assert n == 0 <==> NumberCells(v) == {};
    hide *;
    if n == 0 {
      q := 0;
    } else {
      q := Truncated(LotSum(v) / (n as real) / (step as real));
      Truncates(LotSum(v), n, step, q);
      MultipleIs(q, step);
    }
  }

  lemma AverageOfSum(v: seq<Value>, step: int)
    requires step > 0
    ensures |NumberCells(v)| == 0 ==> Average(v, step) == Blank
    ensures var n := |NumberCells(v)|;
      n > 0 ==> Average(v, step) == Number(Multiple(Truncated(LotSum(v) / (n as real) / (step as real)), step))
  {
    var at := NumbersAreCells(v);
    TotalIsLotSum(v);
    assert |NumberCells(v)| == 0 <==> NumberCells(v) == {};
    hide Numbers, LotSum, NumberCells, Truncated, Multiple, Total;
  }

  lemma MultipleIs(q: int, step: int)
    ensures Multiple(q, step) == (q * step) as real
  {
  }

  lemma Truncates(sum: real, n: int, step: int, q: int)
    requires n > 0 && step > 0 && q == Truncated(sum / (n as real) / (step as real))
    ensures sum >= 0.0 ==> Times(q, step, n) <= sum < Times(q + 1, step, n)
    ensures sum < 0.0 ==> Times(q - 1, step, n) < sum <= Times(q, step, n)
  {
    hide Times;
    if sum >= 0.0 {
      Floors(sum, n, step);
    } else {
      Floors(-sum, n, step);
      TimesNegated(-q, step, n);
      TimesNegated(1 - q, step, n);
      NegatedQuotient(sum, n as real);
      NegatedQuotient(sum / (n as real), step as real);
    }
  }

  lemma NegatedQuotient(x: real, w: real)
    requires w > 0.0
    ensures (-x) / w == -(x / w)
  {
    var q := x / w;
    assert q * w == x;
    assert (-q) * w == -x;
  }

  lemma Floors(sum: real, n: int, step: int)
    requires n > 0 && step > 0 && sum >= 0.0
    ensures var q := (sum / (n as real) / (step as real)).Floor;
      sum / (n as real) / (step as real) >= 0.0 && Times(q, step, n) <= sum < Times(q + 1, step, n)
  {
    var a, b := n as real, step as real;
    NonNegativeQuotient(sum, a);
    NonNegativeQuotient(sum / a, b);
    Unscaled(sum, a);
    Unscaled(sum / a, b);
    var x := sum / a / b;
    var q := x.Floor;
    ScaledGrows(q as real, x, b);
    ScaledGrows(x, (q + 1) as real, b);
    ScaledGrows(Scaled(q as real, b), Scaled(x, b), a);
    ScaledGrows(Scaled(x, b), Scaled((q + 1) as real, b), a);
    TimesIsScaled(q, step, n);
    TimesIsScaled(q + 1, step, n);
    hide Scaled, Times;
  }

  lemma NonNegativeQuotient(x: real, w: real)
    requires x >= 0.0 && w > 0.0
    ensures x / w >= 0.0
  {
    var q := x / w;
    assert q * w == x;
  }

  lemma TimesNegated(q: int, step: int, n: int)
    ensures Times(-q, step, n) == -Times(q, step, n)
  {
    assert -q * step * n == -(q * step * n);
  }

  lemma TimesIsScaled(q: int, step: int, n: int)
    ensures Times(q, step, n) == Scaled(Scaled(q as real, step as real), n as real)
  {
    assert (q * step) as real == (q as real) * (step as real);
    assert (q * step * n) as real == ((q * step) as real) * (n as real);
  }

  // ----- The ten dated columns

  /** Row `q` bears the symbol; the first name belongs to row 2. */
  ghost predicate Bears(names: seq<Option<int>>, q: int, s: int) {
    2 <= q < 2 + |names| && names[q - 2] == Some(s)
  }

  /** Some row of the symbol has no listing date after the day. */
  ghost predicate ListedBy(start: Cells, names: seq<Option<int>>, s: int, day: int) {
    exists q :: Bears(names, q, s) && (At(start, q, 2).Date? ==> At(start, q, 2).day <= day)
  }

  ghost predicate LotMissing(start: Cells, names: seq<Option<int>>, s: int, col: int) {
    exists q :: Bears(names, q, s) && !At(start, q, col).Number?
  }

  /** The symbol is listed by the day, and the day is not shown yet, or everything is replaced, or a lot is missing. */
  ghost predicate ToCompute(start: Cells, names: seq<Option<int>>, history: Option<int>, rebuild: bool, s: int,
                            day: int) {
    && ListedBy(start, names, s, day)
    && (rebuild || history == None || day < history.value || day > history.value + 9
        || LotMissing(start, names, s, 4 + day - history.value))
  }

  lemma RowsAreNamed(listing: Listing, names: seq<Option<int>>, s: int)
    requires IsListing(listing, names)
    ensures s in listing.rows ==> forall q :: q in listing.rows[s] <==> Bears(names, q, s)
    ensures s !in listing.rows ==> forall q :: !Bears(names, q, s)
  {
    forall q ensures Bears(names, q, s) <==> SymbolAt(names, q) == Some(s) {
      assert 2 <= q < 2 + |names| ==> SymbolAt(names, q) == names[q - 2];
    }
  }

  lemma WantedMeans(start: Cells, listing: Listing, names: seq<Option<int>>, history: Option<int>, rebuild: bool,
                    s: int, day: int)
    requires IsListing(listing, names)
    ensures Wanted(start, listing, history, rebuild, s, day) <==> ToCompute(start, names, history, rebuild, s, day)
  {
    RowsAreNamed(listing, names, s);
    hide IsListing;
    if s in listing.rows {
      ListedMeans(start, listing.rows[s], names, s, day);
      forall col ensures LacksNumber(start, listing.rows[s], col) <==> LotMissing(start, names, s, col) {
        LacksMeans(start, listing.rows[s], names, s, col);
      }
      hide Listed, LacksNumber, ListedBy, LotMissing;
    }
  }

  lemma ListedMeans(start: Cells, rows: seq<int>, names: seq<Option<int>>, s: int, day: int)
    requires forall q :: q in rows <==> Bears(names, q, s)
    ensures Listed(start, rows, day) <==> ListedBy(start, names, s, day)
  {
    if Listed(start, rows, day) {
      var q :| q in rows && (At(start, q, 2).Date? ==> At(start, q, 2).day <= day);
      assert Bears(names, q, s);
    }
  }

  lemma LacksMeans(start: Cells, rows: seq<int>, names: seq<Option<int>>, s: int, col: int)
    requires forall q :: q in rows <==> Bears(names, q, s)
    ensures LacksNumber(start, rows, col) <==> LotMissing(start, names, s, col)
  {
    if LacksNumber(start, rows, col) {
      var q :| q in rows && !At(start, q, col).Number?;
      assert Bears(names, q, s);
    }
  }

  /** What one cell under the ten dates holds after a run: the lot or the error of its symbol and date if they were
      to be computed, otherwise the value that stood under that date, if the date stays, and otherwise nothing. */
  lemma CellAfterRun(start: Cells, after: Cells, maxRow: nat, names: seq<Option<int>>, listing: Listing, first: int,
                     history: Option<int>, rebuild: bool, source: (int, int) -> Result<real, int>, step: int, r: int,
                     c: int)
    requires step > 0 && |names| == maxRow - 1 && IsListing(listing, names)
    requires Exported(start, after, maxRow, names, listing, first, history, rebuild, source, step)
    requires 2 <= r <= maxRow && 4 <= c <= 13
    ensures var day := first + c - 4; var symbol := names[r - 2];
      if symbol.Some? && ToCompute(start, names, history, rebuild, symbol.value, day) then
        match source(symbol.value, day)
        case Ok(lot) => At(after, r, c) == Number(lot)
        case Err(message) => At(after, r, c) == Failure(symbol.value, message)
      else
        At(after, r, c) == if !rebuild && history.Some? && history.value <= day <= history.value + 9
        then At(start, r, 4 + day - history.value) else Blank
  {
    var day, symbol := first + c - 4, names[r - 2];
    assert SymbolAt(names, r) == symbol;
    assert Lot(after, HISTORY_FIRST_COLUMN, first, r, day)
      == Some(FinalValue(start, names, listing, history, rebuild, source, r, day));
    if symbol.Some? {
      WantedMeans(start, listing, names, history, rebuild, symbol.value, day);
    }
    hide Wanted, ToCompute, Exported, IsListing;
  }

  function TenCells(cells: Cells, r: int): seq<Value> {
    [At(cells, r, 4), At(cells, r, 5), At(cells, r, 6), At(cells, r, 7), At(cells, r, 8), At(cells, r, 9),
     At(cells, r, 10), At(cells, r, 11), At(cells, r, 12), At(cells, r, 13)]
  }

  lemma TenCellsAreHistory(cells: Cells, r: int)
    ensures TenCells(cells, r) == RowHistory(cells, r)
  {
  }

  lemma ShownIsAverage(start: Cells, after: Cells, maxRow: nat, names: seq<Option<int>>, listing: Listing, first: int,
                       history: Option<int>, rebuild: bool, source: (int, int) -> Result<real, int>, step: int, r: int)
    requires step > 0 && |names| == maxRow - 1
    requires Exported(start, after, maxRow, names, listing, first, history, rebuild, source, step)
    requires 2 <= r <= maxRow && names[r - 2].Some?
    ensures At(after, r, 3) == Average(TenCells(after, r), step)
  {
    assert SymbolAt(names, r) == names[r - 2];
    TenCellsAreHistory(after, r);
    hide TenCells, RowHistory, Average;
  }

  /** Column C after a run: nothing in a named row without a number cell, otherwise the multiple of the step that
      the row's number cells floor to. */
  lemma AverageAfterRun(start: Cells, after: Cells, maxRow: nat, names: seq<Option<int>>, listing: Listing, first: int,
                        history: Option<int>, rebuild: bool, source: (int, int) -> Result<real, int>, step: int, r: int)
    returns (q: int)
    requires step > 0 && |names| == maxRow - 1
    requires Exported(start, after, maxRow, names, listing, first, history, rebuild, source, step)
    requires 2 <= r <= maxRow && names[r - 2].Some?
    ensures var row := TenCells(after, r); var n := |NumberCells(row)|;
      && (n == 0 ==> At(after, r, 3) == Blank)
      && (n > 0 ==> At(after, r, 3) == Number((q * step) as real))
      && (n > 0 && LotSum(row) >= 0.0 ==> (q * step * n) as real <= LotSum(row) < ((q + 1) * step * n) as real)
      && (n > 0 && LotSum(row) < 0.0 ==> ((q - 1) * step * n) as real < LotSum(row) <= (q * step * n) as real)
  {
    var row := TenCells(after, r);
    ShownIsAverage(start, after, maxRow, names, listing, first, history, rebuild, source, step, r);
    q := AverageIsFloored(row, step);
    hide Exported, Average, NumberCells, LotSum, TenCells, At;
    assert |NumberCells(row)| == 0 <==> NumberCells(row) == {};
  }

  /** If row `r` bears a symbol, column C shows the average of its ten cells. */
  ghost predicate AverageShown(cells: Cells, names: seq<Option<int>>, step: int, r: int)
    requires step > 0
  {
    2 <= r < 2 + |names| && names[r - 2].Some? ==> At(cells, r, 3) == Average(TenCells(cells, r), step)
  }

  /** When the run finds nothing to do: today is among the dates, nothing is replaced or was moved, nothing is to
      be computed for any of the dates, and column C is up to date. */
  lemma IdleMeans(cells: Cells, listing: Listing, names: seq<Option<int>>, history: Option<int>, today: int,
                  rebuild: bool, migrated: bool, step: int)
    requires step > 0 && IsListing(listing, names)
    ensures (NothingToDo(cells, listing, history, today, rebuild, migrated, step) <==>
        && history.Some? && history.value <= today <= history.value + 9 && !rebuild && !migrated
        && At(cells, 1, 3) == AVERAGE_HEADER && (forall r :: AverageShown(cells, names, step, r))
        && forall day, s :: history.value <= day <= history.value + 9 ==>
             !ToCompute(cells, names, history, false, s, day))
  {
    forall day, s ensures Wanted(cells, listing, history, false, s, day) <==>
        ToCompute(cells, names, history, false, s, day)
    {
      WantedMeans(cells, listing, names, history, false, s, day);
    }
    StaleMeans(cells, listing, names, step);
    hide Wanted, AveragesStale, ToCompute, IsListing, AverageShown;
  }

  lemma StaleMeans(cells: Cells, listing: Listing, names: seq<Option<int>>, step: int)
    requires step > 0 && IsListing(listing, names)
    ensures (!AveragesStale(cells, listing, step) <==>
        At(cells, 1, 3) == AVERAGE_HEADER && forall r :: AverageShown(cells, names, step, r))
  {
    hide Average, TenCells, RowHistory;
    forall r ensures TenCells(cells, r) == RowHistory(cells, r) {
      TenCellsAreHistory(cells, r);
    }
    if !AveragesStale(cells, listing, step) {
      forall r ensures AverageShown(cells, names, step, r) {
        if 2 <= r < 2 + |names| && names[r - 2].Some? {
          assert Bears(names, r, names[r - 2].value);
          RowsAreNamed(listing, names, names[r - 2].value);
        }
      }
    }
    if forall r :: AverageShown(cells, names, step, r) {
      forall s, r | s in listing.rows && r in listing.rows[s]
        ensures At(cells, r, 3) == Average(RowHistory(cells, r), step)
      {
        RowsAreNamed(listing, names, s);
        assert Bears(names, r, s) && AverageShown(cells, names, step, r);
      }
    }
  }
}
