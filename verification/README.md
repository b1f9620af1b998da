# Verification model of the MRS analyser's stateful core

Dafny 4.11 models of the parts of the repository that carry state, loops or exact arithmetic, and
proofs of what they promise. Each module stands for one component; code that changes things in place
(union-find lists, the importer, the sheet, the process bridge, index arrays) is modelled by methods
and classes that do the same, code made of expressions by functions.

| module | component |
|---|---|
| `GridClusters` | union-find with path halving over grid cells, in two and three dimensions |
| `ImportPipeline`, `ImportWindow`, `ImportOrder` | the bounded v4 importer with one writer and batch commits, its submission window, and what the completion order can change |
| `ReportCodec`, `CodecBytes` | the v3 delta, sparse wallet and action codecs, and the bytes they store |
| `HistorySheet`, `HistoryExport`, `ExportMeaning` | the rolling ten-date sheet, its in-place moves, one export run over it, and what that run leaves in each cell |
| `BaseLot`, `LotMeaning` | the exact decimal base lot on digits and exponents, and the numbers these stand for |
| `Drawdown`, `StepCurves`, `PercentDrawdown`, `SummedCurve` | running peaks, windows of step curves, percentage drawdowns of smaller windows, drawdowns of summed curves |
| `ForwardStats`, `ForwardMeaning` | balance conservation over windows of an action chain, and which actions count |
| `PortfolioBank`, `Bootstrap`, `BootstrapMeaning` | required bank of a weighted path, splittable bootstrap batches, and one scenario of them |
| `BatchBridge` | the retry-once bridge to a process pool that may break at any point |
| `RegimeFacts`, `RegimeScan`, `RegimeMeaning`, `RegimeReplay`, `RegimeVerdict` | high-water-mark facts and prefixes, the scan that computes them, the facts by points alone, their replay, and the classification of a history |
| `GroupStream` | the streaming grouper over an ordered cursor |
| `Shortlist`, `ShortlistMeaning` | Pareto filtering with audit links, and the same by the candidates' fields |
| `EquityQuality`, `QualityMeaning` | raw against last-per-timestamp risk and efficiency figures, and what they say about the points |
| `Sorting`, `Wrappers` | stable sort, filters and sums used above; `Option` and `Result` |

What is nondeterministic in the program is an arbitrary parameter here, so a theorem about it holds
for every behaviour: `Pool` in `ImportPipeline` (which submissions are refused, which futures each
wait finds done, what they deliver), `Pool` in `BatchBridge` (refusals, completion order, failures and
interrupts), the random `Source` in `Bootstrap`, the quality `Oracle` in `RegimeFacts`, the lot source
in `HistoryExport` and the logarithm in `EquityQuality`.

Findings that a reader of the program may want to know:

- The stored keys, the imported count and the sum of skipped and quarantined files of an import never
  depend on the completion order (`OrderIndependence`). How that sum splits can (`SkipsDependOnOrder`).
  It is the same for every order that a window of three times the workers allows exactly when all
  hashes that can complete first for a key not stored yet are offered equally often (`SkipsOfRuns`,
  `SkipsOfPools`); both the order of the files and the number of workers enter that condition.
- For curves of positive values the percentage drawdown of a window, which is taken where the absolute
  fall is deepest, never grows when only the start moves (`LaterStartReportsLess`) but may grow with an
  earlier end (`PercentageMayGrow`). It bounds every smaller window exactly when no pair of values loses
  more (`PercentageByPairs`, and `PercentageByPrefixes` for shared timestamps). The absolute drawdown
  never grows, whatever the values (`ShrinkingWindow`).
- The diversification law of summed curves holds for non-negative daily lows
  (`SummedDrawdownDiversifies`). With negative ones it can fail (`NegativeLowsBreakTheLaw`), and it holds
  for all lows that a daily table can hold exactly when the members' peaks add up to the peak of the sum
  on every day (`DiversifiesForAllLows`).
- A second export on the same day is idle exactly when the first had a lot for every cell it wanted
  (`ExportTwice`).
- A single proved resumption licenses growth verdicts for the rest of a history, however often the
  curve stalls again (`ResumptionIsForever`).
- The close-support minimum test, the reopened-result check and the frozen breakout check can never
  change an outcome (`MinimumTestIsRedundant`, `GroupStream`, `ReplayAgrees`).

`dafny verify dfyconfig.toml` checks the whole project.

## Model

| member | source | states |
|---|---|---|
| `GridClusters.Find` | scripts/plateau_research/local_deep_struct.py:93-97 | path halving ends at the root of the start's tree and changes no tree's root, for any forest (termination by a rank that falls along links) |
| `GridClusters.HalvingKeepsForest` | scripts/plateau_research/local_deep_struct.py:93-97 | one halving step keeps every row's root and strictly lowers the rank of the walk |
| `GridClusters.LinkKeepsForest` | scripts/plateau_research/local_deep_struct.py:99-106 | hanging one root under another merges exactly the two trees and keeps the list loop-free |
| `GridClusters.ScanIsComplete` | scripts/plateau_research/local_deep_struct.py:99-106 | after the last row two cells share a root exactly when a chain of neighbours joins them |
| `GridClusters.Components2d` | scripts/plateau_research/local_deep_struct.py:88-110 | for every cell list: the index lists are exactly the classes of chain-connected cells, each ascending, ordered by smallest member |
| `GridClusters.ClassesUnique` | scripts/plateau_research/local_deep_struct.py:107-110 | that description fixes the returned list completely, so union order and tree shapes cannot show |
| `GridClusters.Components3d` | scripts/plateau_research/local_zones_features.py:65-88 | every row gets the number of rows its 26-neighbour class holds |
| `ImportPipeline.Importer.InsertCompactRecord` | programs/Обработчик HTML-DuckDB/mrs3_html_compact_importer_v3.py:431-445 | fails exactly when some stored report has the same point and the same grid, naming such a report and changing nothing; otherwise adds the report with its point and grid |
| `ImportPipeline.JudgeMeans` | programs/Обработчик HTML-DuckDB/mrs3_html_parallel_compact_importer_v4.py:104-121 | an outcome without a record or with an error class is quarantined; a readable one is skipped exactly when its hash is stored, and otherwise quarantined exactly when a stored report has both its point and its grid |
| `ImportPipeline.RowMeans` | programs/Обработчик HTML-DuckDB/mrs3_html_parallel_compact_importer_v4.py:94-121 | the checklist row of a readable report by its fields: own figures when imported, the stored report's when skipped, and the report that holds point and grid when rejected |
| `ImportPipeline.BadRowMeans` | programs/Обработчик HTML-DuckDB/mrs3_html_parallel_compact_importer_v4.py:94-164 | the row of an unreadable file keeps the hash that was seen and the worker's message, if it has one; a worker that raised leaves the marker for an unreadable file |
| `ImportPipeline.LoadKnown` | programs/Обработчик HTML-DuckDB/mrs3_html_compact_importer_v3.py:418-424 | the in-memory indexes mirror the stored reports |
| `ImportPipeline.Importer.Quarantine` | programs/Обработчик HTML-DuckDB/mrs3_html_parallel_compact_importer_v4.py:94-101 | upserts one rejected row per hash and appends one unsafe checklist row |
| `ImportPipeline.Importer.StoreOutcome` | programs/Обработчик HTML-DuckDB/mrs3_html_parallel_compact_importer_v4.py:104-121 | one outcome moves database, memory, checklist and quarantine list exactly as the reference judgement says |
| `ImportPipeline.Importer.FillQueue` | programs/Обработчик HTML-DuckDB/mrs3_html_parallel_compact_importer_v4.py:148-155 | refills until the window of 3 x workers is full, the files run out or a submission is refused, and logs each submission |
| `ImportPipeline.Importer.Drain` | programs/Обработчик HTML-DuckDB/mrs3_html_parallel_compact_importer_v4.py:160-181 | each completed future is stored and logged once, in the order delivered, with batch commits in between |
| `ImportPipeline.Importer.Pump` | programs/Обработчик HTML-DuckDB/mrs3_html_parallel_compact_importer_v4.py:157-184 | each file completes at most once within the window; unless a submission is refused every file completes, in the order that the waits decide |
| `ImportPipeline.Importer.ImportReports` | programs/Обработчик HTML-DuckDB/mrs3_html_parallel_compact_importer_v4.py:124-195 | fails exactly for bad limits or at the first refused submission; a normal return commits all outcomes, gives every file exactly one checklist row and quarantines exactly the rejected rows; an error keeps a prefix and loses fewer imports than one batch; at every point of the log at most 3 x workers submitted files await completion |
| `ImportWindow.LogSubmission` | programs/Обработчик HTML-DuckDB/mrs3_html_parallel_compact_importer_v4.py:148-155 | a submission into a window that is not full keeps the log within the limit at every earlier point too |
| `ImportWindow.ReachableIsLogged` | programs/Обработчик HTML-DuckDB/mrs3_html_parallel_compact_importer_v4.py:146-184 | the orders in which the k-th completion is a file before k + window are exactly the complete orders that some log within the window records |
| `ImportWindow.OrderIsReachable` | programs/Обработчик HTML-DuckDB/mrs3_html_parallel_compact_importer_v4.py:157-184 | whatever each wait finds completed, the order of a run is such an order |
| `ImportWindow.ReachableIsARun` | programs/Обработчик HTML-DuckDB/mrs3_html_parallel_compact_importer_v4.py:157-184 | every such order is the order of some run |
| `ImportWindow.FullOrderIsPermutation` | programs/Обработчик HTML-DuckDB/mrs3_html_parallel_compact_importer_v4.py:157-184 | a completion order without repetition that covers the count is a permutation of the files |
| `ImportPipeline.RowsNameFiles` | programs/Обработчик HTML-DuckDB/mrs3_html_parallel_compact_importer_v4.py:94-121 | if every returned outcome names the file its worker read, the rows' files are the scanned files, each exactly once, in any completion order |
| `ImportPipeline.AbsorbAllGrows` | programs/Обработчик HTML-DuckDB/mrs3_html_parallel_compact_importer_v4.py:104-121 | no later outcome removes or replaces a stored report |
| `ImportPipeline.SafeRowsAreStored` | programs/Обработчик HTML-DuckDB/mrs3_html_parallel_compact_importer_v4.py:104-121 | a row is marked safe to delete exactly for imported or skipped files, and its hash is among the stored reports at the end |
| `ImportPipeline.TallyTotal` | programs/Обработчик HTML-DuckDB/mrs3_html_parallel_compact_importer_v4.py:164-175 | imported + skipped + quarantined equals the outcomes seen |
| `ImportPipeline.ManifestMatchesRows` | programs/Обработчик HTML-DuckDB/mrs3_html_parallel_compact_importer_v4.py:164-195 | the manifest counts the checklist's rows by status, and its actions and samples are the sums of the figures that the imported rows show |
| `ImportPipeline.FinalKeys` | programs/Обработчик HTML-DuckDB/mrs3_html_parallel_compact_importer_v4.py:104-121 | the stored canonical keys are the earlier ones plus every key some readable report offered |
| `ImportPipeline.FinalPairs` | programs/Обработчик HTML-DuckDB/mrs3_html_parallel_compact_importer_v4.py:104-121 | in terms of fields: the stored pairs of point and grid are the earlier ones plus every offered one, and the imports are as many as the new pairs |
| `ImportPipeline.RunPairs` | programs/Обработчик HTML-DuckDB/mrs3_html_parallel_compact_importer_v4.py:124-195 | after a run there is one stored report for each pair of point and grid that was stored or offered, and the manifest's imported count is the number of new pairs |
| `ImportPipeline.ImportedCountsNewKeys` | programs/Обработчик HTML-DuckDB/mrs3_html_parallel_compact_importer_v4.py:104-121 | the imported count is the number of offered keys not stored before |
| `ImportPipeline.OrderIndependence` | programs/Обработчик HTML-DuckDB/mrs3_html_parallel_compact_importer_v4.py:104-184 | keys, imported count and skipped + quarantined total are the same for every permutation of the outcomes |
| `ImportPipeline.SkipsDependOnOrder` | programs/Обработчик HTML-DuckDB/mrs3_html_parallel_compact_importer_v4.py:104-121 | two files of equal content and a rival report, in two completion orders that split skipped and quarantined differently |
| `ImportOrder.SkipsOfRuns` | programs/Обработчик HTML-DuckDB/mrs3_html_parallel_compact_importer_v4.py:146-184 | the skipped count, and so the quarantined one, is the same for every completion order that a window allows if and only if all hashes that can come first for a new key are offered equally often; a file can come first when fewer of the files submitted before it offer its key than the window holds |
| `ImportOrder.SkipsOfPools` | programs/Обработчик HTML-DuckDB/mrs3_html_parallel_compact_importer_v4.py:124-184 | the same for whole runs: over all executors doing the same work, in a window of 3 x workers |
| `ImportOrder.SkipsAreFixed` | programs/Обработчик HTML-DuckDB/mrs3_html_parallel_compact_importer_v4.py:104-121 | over all permutations of the outcomes, which only a window as large as the directory allows, the condition is on every hash offered for a new key |
| `ImportOrder.KeptFiles` | programs/Обработчик HTML-DuckDB/mrs3_html_parallel_compact_importer_v4.py:104-121 | skipped plus imported files are the readable ones whose hash is stored at the end |
| `ImportOrder.FirstComesFirst` | programs/Обработчик HTML-DuckDB/mrs3_html_parallel_compact_importer_v4.py:146-184 | for two files that contend for a new key the window allows an order in which the one comes first and one in which the other does, and their skips differ by the difference of the copies |
| `ImportOrder.HolderContends` | programs/Обработчик HTML-DuckDB/mrs3_html_parallel_compact_importer_v4.py:146-184 | whoever holds a new key after a run was a contender |
| `ImportOrder.EvenRunsReportAlike` | programs/Обработчик HTML-DuckDB/mrs3_html_parallel_compact_importer_v4.py:124-184 | with evenly offered hashes any two finished runs report the same three counts |
| `ImportPipeline.AnyTwoRunsAgree` | programs/Обработчик HTML-DuckDB/mrs3_html_parallel_compact_importer_v4.py:124-184 | two finished runs with different workers, windows and completion orders store the same keys and import as many reports |
| `ImportPipeline.FinishedRun` | programs/Обработчик HTML-DuckDB/mrs3_html_parallel_compact_importer_v4.py:124-195 | the manifest adds up to the files, every file has exactly one row, safe rows are stored, and the schema constraints hold |
| `ImportPipeline.RestartAfterRefusal` | programs/Обработчик HTML-DuckDB/mrs3_html_parallel_compact_importer_v4.py:185-193 | importing the same files again after a run that broke off ends with the keys of one uninterrupted run, and the imports of both add up to its imports |
| `ImportPipeline.StoreAllIsSane` | programs/Обработчик HTML-DuckDB/mrs3_html_compact_importer_v3.py:431-445 | no run of outcomes breaks uniqueness of hashes and keys or leaves a report without its point and grid |
| `ReportCodec.Int64RoundTrip` | programs/Обработчик HTML-DuckDB/mrs3_html_compact_importer_v3.py:235-235 | eight little-endian bytes give the signed value back |
| `ReportCodec.BytesRoundTrip` | programs/Обработчик HTML-DuckDB/mrs3_html_compact_importer_v3.py:242-242 | any eight bytes are the packing of the value they unpack to |
| `CodecBytes.SeriesBytes` | programs/Обработчик HTML-DuckDB/mrs3_html_compact_importer_v3.py:231-235 | sample k of an encoded series takes the bytes 8k to 8k+7, the lowest first in two's complement: the first value, then the difference to the sample before |
| `ReportCodec.DecodeDeltas` | programs/Обработчик HTML-DuckDB/mrs3_html_compact_importer_v3.py:238-246 | the loop sums the differences it reads; inflate errors and size mismatches are reported |
| `ReportCodec.DecodeInvertsEncode` | programs/Обработчик HTML-DuckDB/mrs3_html_compact_importer_v3.py:231-246 | encoding succeeds exactly when the series is non-empty and its first value and differences fit int64, and then decodes back at the declared count only |
| `ReportCodec.EncodeInvertsDecode` | programs/Обработчик HTML-DuckDB/mrs3_html_compact_importer_v3.py:231-246 | every blob that decodes to a non-empty series inflates to the bytes that the encoding of that series inflates to |
| `ReportCodec.ChangesAreSparse` | programs/Обработчик HTML-DuckDB/mrs3_html_compact_importer_v3.py:249-250 | the changes start at index 0, ascend strictly and no two neighbours are equal |
| `ReportCodec.SparseIsUnique` | programs/Обработчик HTML-DuckDB/mrs3_html_compact_importer_v3.py:249-250 | two sparse lists with the same expansion are equal |
| `ReportCodec.ChangesAreCanonical` | programs/Обработчик HTML-DuckDB/mrs3_html_compact_importer_v3.py:249-252 | the changes expand back to the series, and every sparse list is the changes of its expansion |
| `ReportCodec.RecordsRoundTrip` | programs/Обработчик HTML-DuckDB/mrs3_html_compact_importer_v3.py:251-259 | twelve-byte index and value records unpack to themselves |
| `ReportCodec.WalletRoundTrip` | programs/Обработчик HTML-DuckDB/mrs3_html_compact_importer_v3.py:249-259 | a stored wallet decodes at its declared count only, to a sparse list that expands to the original series |
| `ReportCodec.WalletEncodes` | programs/Обработчик HTML-DuckDB/mrs3_html_compact_importer_v3.py:249-252 | up to 2^32 samples the encoder fails exactly when some sample does not fit int64 |
| `CodecBytes.WalletBytes` | programs/Обработчик HTML-DuckDB/mrs3_html_compact_importer_v3.py:249-252 | change k takes twelve bytes: four of the sample's index and eight of its value, the lowest first |
| `CodecBytes.ChangesMean` | programs/Обработчик HTML-DuckDB/mrs3_html_compact_importer_v3.py:249-250 | a sample is stored exactly when it is the first or differs from the one before it |
| `ReportCodec.ZipRestores` | programs/Обработчик HTML-DuckDB/mrs3_html_compact_importer_v3.py:280-280 | zipping headers and cells rebuilds an insertion-ordered row |
| `CodecBytes.TableMeans` | programs/Обработчик HTML-DuckDB/mrs3_html_compact_importer_v3.py:262-269 | an encoded action table has the first row's headers once and every row's cells in their order |
| `ReportCodec.ActionsRoundTrip` | programs/Обработчик HTML-DuckDB/mrs3_html_compact_importer_v3.py:262-280 | action tables encode exactly when all rows share the headers in order, and decode back row by row |
| `HistorySheet.Sheet.HistoryColumns` | scripts/calculate_bybit_base_lots.py:135-143 | no history exactly when none of the ten cells is a date or ISO text, and the history from a day exactly when they show that day and the nine after it, as dates or text; strictly ascending dates with a gap and every other mixture are told apart as errors |
| `HistorySheet.Sheet.Migrate` | scripts/calculate_bybit_base_lots.py:146-164 | moves the columns exactly when C:L holds ten consecutive dates and M is empty, refuses a malformed C:L or an occupied M each with its error, and otherwise leaves every cell alone |
| `HistorySheet.Sheet.Rotate` | scripts/calculate_bybit_base_lots.py:367-379 | every cell after the left rotation in terms of the cells before it |
| `HistorySheet.Sheet.Reset` | scripts/calculate_bybit_base_lots.py:332-363 | every cell after the rebuild in terms of the cells before it, although columns are overwritten while they are copied |
| `HistorySheet.MigrationIsIdentity` | scripts/calculate_bybit_base_lots.py:156-160 | as a map from row and date to value the move changes nothing, and nothing outside C:M |
| `HistorySheet.RotationDropsOldest` | scripts/calculate_bybit_base_lots.py:367-379 | rotation removes exactly the oldest date, adds a blank newest one and keeps every other value under its date |
| `HistorySheet.RebuildKeepsSurvivors` | scripts/calculate_bybit_base_lots.py:332-363 | exactly the surviving dates keep their values; all other target dates come up blank |
| `HistorySheet.RotationsAreOneRebuild` | scripts/calculate_bybit_base_lots.py:332-379 | g one-day rotations end in the same cells as one preserving rebuild over a gap of g days, for every g, header spelling aside |
| `HistoryExport.ReadSymbolRows` | scripts/calculate_bybit_base_lots.py:482-491 | every named row is listed once under its symbol |
| `HistoryExport.Compute` | scripts/calculate_bybit_base_lots.py:678-701 | each due symbol and date yields its lot or its error, and errors are reported exactly when some source call failed |
| `HistoryExport.JobsFor` | scripts/calculate_bybit_base_lots.py:654-670 | the collected jobs are exactly the wanted symbols of the dates scanned |
| `HistoryExport.MakePlan` | scripts/calculate_bybit_base_lots.py:607-670 | the action, dates and due cells for every combination of history, date and flags, exactly when a run is refused or has nothing to do, and with which error |
| `HistoryExport.WriteJobs` | scripts/calculate_bybit_base_lots.py:742-760 | each due row gets its result in its own date's column and every other cell is kept |
| `HistoryExport.NormaliseHeaders` | scripts/calculate_bybit_base_lots.py:761-765 | text headers that are dates become dates; no other cell changes |
| `HistoryExport.WriteAverages` | scripts/calculate_bybit_base_lots.py:234-240 | column C holds the average of its row's ten values and no other cell changes |
| `ExportMeaning.NumbersAreCells` | scripts/calculate_bybit_base_lots.py:210-213 | the averaged numbers are those of the number cells, one for each, in their order |
| `ExportMeaning.AverageIsFloored` | scripts/calculate_bybit_base_lots.py:210-218 | for any cells: blank without a number cell, otherwise the multiple q of the step for which q steps times the count of number cells reach their sum as far as possible, rounded toward zero for negative sums |
| `HistoryExport.ApplyMoves` | scripts/calculate_bybit_base_lots.py:725-735 | whichever action is taken, every row holds under each target date what it held under it before, or a blank |
| `HistoryExport.StepsExport` | scripts/calculate_bybit_base_lots.py:720-766 | moves, writes, header clean-up and averages together put every computed value under its own date and keep every survivor |
| `HistoryExport.Workbook.Export` | scripts/calculate_bybit_base_lots.py:580-774 | says exactly when a run is refused, fails or has nothing to do, with which error, and then leaves the saved workbook as it was; any other run saves ten dates ending with or containing today in which every cell is the computed, the surviving or a blank value, and records the model of its lots |
| `ExportMeaning.CellAfterRun` | scripts/calculate_bybit_base_lots.py:580-774 | each of the ten cells of a row: the lot or the error of its symbol and date when some row lists the symbol by then and the date is new, everything is replaced or a lot is missing; otherwise what stood under that date, or a blank |
| `ExportMeaning.AverageAfterRun` | scripts/calculate_bybit_base_lots.py:210-240 | column C of every named row by the ten cells beside it: blank, or the step multiple that the sum and the count of its number cells floor to |
| `ExportMeaning.IdleMeans` | scripts/calculate_bybit_base_lots.py:607-652 | nothing to do means: today is shown, nothing is forced or was moved, no symbol has anything to compute under any date, and every average is right |
| `HistoryExport.SecondRunIsIdle` | scripts/calculate_bybit_base_lots.py:607-652 | what a run saves refuses no second run on the same day and leaves it nothing to do exactly when every source call of the first gave a lot |
| `HistoryExport.ExportTwice` | scripts/calculate_bybit_base_lots.py:580-774 | a second export on the same day finds nothing to do, and leaves the workbook alone, exactly when the first had a lot for every cell it wanted |
| `HistoryExport.NumbersSurvive` | scripts/calculate_bybit_base_lots.py:268-278 | without a forced rebuild a number under a surviving date is kept when all rows of its symbol hold numbers there |
| `HistoryExport.ListedCellsAreAnswered` | scripts/calculate_bybit_base_lots.py:624-670 | after any run every listed symbol holds a lot or an error under each of the ten dates |
| `BaseLot.TimesIsExact` | scripts/calculate_bybit_base_lots.py:412-415 | with the chosen precision a product of decimals is exact, so half-even rounding never acts |
| `BaseLot.QuotientFits` | scripts/calculate_bybit_base_lots.py:416-426 | the quotient of digits and exponents floors the exact ratio of value and step |
| `BaseLot.BaseLotIsFloor` | scripts/calculate_bybit_base_lots.py:394-427 | the result is the largest whole multiple of the step not above the exact product of coefficient, turnover and activity |
| `LotMeaning.LotMeans` | scripts/calculate_bybit_base_lots.py:394-427 | the result is a multiple of the step, and no larger multiple is within the product of the three numbers |
| `LotMeaning.ValueMeans` | scripts/calculate_bybit_base_lots.py:416-426 | what number a decimal stands for: its coefficient at exponent 0, tenfold with each higher exponent, negative under a sign |
| `LotMeaning.ErrorMeans` | scripts/calculate_bybit_base_lots.py:382-411 | the error is that of the first unusable argument in the order turnover, activity, coefficient, step; a fractional step comes last |
| `LotMeaning.FixMeans` | scripts/calculate_bybit_base_lots.py:409-412 | the context keeps at most its precision in digits: a longer coefficient becomes the rounded one at the dropped power of ten, under the same sign |
| `LotMeaning.HalfEvenMeans` | scripts/calculate_bybit_base_lots.py:409-412 | the context's rounding goes to the nearest multiple of the dropped power of ten, and to the even one of two equally near |
| `BaseLot.BaseLotAccepts` | scripts/calculate_bybit_base_lots.py:382-411 | accepted exactly for exact positive turnover, coefficient and step, non-negative activity and a step whose value is an integer |
| `BaseLot.FormsDoNotMatter` | scripts/calculate_bybit_base_lots.py:394-427 | arguments of equal value give results of equal value, whatever digits and exponents spell them |
| `Drawdown.PeakIsMaximum` | scripts/plateau_research/measure.py:155-155 | the running maximum bounds and is one of the values so far |
| `Drawdown.AbsoluteIsLargestFall` | scripts/plateau_research/measure.py:147-158 | the absolute drawdown is the largest fall from a value to any later one, and is attained |
| `Drawdown.PercentageMeans` | scripts/plateau_research/measure.py:147-158 | the percentage is that of the first deepest fall, in percent of the highest value before it, and 0 when that value is 0 |
| `Drawdown.ResampledFallsNoDeeper` | scripts/plateau_research/measure.py:147-158 | a path that revisits values in order falls no deeper |
| `StepCurves.BeforeSplits` | scripts/plateau_research/measure.py:126-128 | the left insertion point splits sorted times at the moment, and nowhere else |
| `StepCurves.LastMeans` | scripts/plateau_research/measure.py:126-131 | a curve's value before a moment is that of the last sample before it, or the start when there is none |
| `StepCurves.SegmentMeans` | scripts/plateau_research/measure.py:147-152 | the drawdown of a window is taken over the value before it and exactly the samples inside it |
| `StepCurves.ShrinkingWindow` | scripts/plateau_research/measure.py:147-158 | the absolute drawdown never grows when the window shrinks, although the anchor moves |
| `PercentDrawdown.PercentageByPairs` | scripts/plateau_research/measure.py:147-158 | for positive paths without shared timestamps: no smaller window reports a larger percentage if and only if no value of the path is followed by one more than that percentage below it |
| `PercentDrawdown.PercentageByPrefixes` | scripts/plateau_research/measure.py:147-158 | for every chronological curve of positive values the law holds if and only if no window with the same start and an earlier end reports more |
| `PercentDrawdown.LaterStartReportsLess` | scripts/plateau_research/measure.py:147-158 | moving only the start of a window never raises the percentage |
| `PercentDrawdown.NoWorsePairIsEnough` | scripts/plateau_research/measure.py:147-158 | without such a pair the law holds for shared timestamps too |
| `PercentDrawdown.PercentageMayGrow` | scripts/plateau_research/measure.py:147-158 | a curve whose percentage drawdown is larger in a smaller window |
| `StepCurves.JointFall` | scripts/plateau_research/stage2.py:67-76 | between two moments curves together lose at most the sum of their window drawdowns |
| `StepCurves.CombinedIsSubadditive` | scripts/plateau_research/stage2.py:67-80 | on the union of timestamps the summed curve's drawdown is at most the sum of its members' |
| `StepCurves.Combined` | scripts/plateau_research/stage2.py:67-80 | anchors, ascending union of stamps and drawdown of the summed path, with the subadditive bound |
| `SummedCurve.WindowDdAtMost` | scripts/plateau_research/local_deep_struct.py:57-61 | the one-pass percentage stays within a bound exactly when every earlier close and later low do |
| `SummedCurve.WindowDdRange` | scripts/plateau_research/local_deep_struct.py:57-61 | with positive closes and non-negative lows the drawdown lies between 0 and 100 percent |
| `SummedCurve.SummedDrawdownDiversifies` | scripts/plateau_research/local_deep_struct.py:64-79 | with positive closes and non-negative lows the summed curve's maximum percentage drawdown is at most the worst member's, for every window |
| `SummedCurve.DiversifiesForAllLows` | scripts/plateau_research/local_deep_struct.py:46-79 | for given positive closes the law holds for all daily lows up to the closes, negative ones included, if and only if on every day of the window the peak of the summed closes is the sum of the members' peaks |
| `SummedCurve.WindowDdByPeaks` | scripts/plateau_research/local_deep_struct.py:57-61 | the percentage stays within any non-negative bound exactly when no low undercuts the peak before it by more |
| `SummedCurve.NegativeLowsBreakTheLaw` | scripts/plateau_research/local_deep_struct.py:57-79 | two members with negative lows whose sum falls deeper than either |
| `ForwardStats.FundingByAction` | scripts/plateau_research/measure.py:247-257 | every chained action's funding is the part of the balance move its result and fee do not explain |
| `ForwardStats.CutIsPrefix` | scripts/plateau_research/measure.py:114-118 | sorting the actions before the tail cut gives a prefix of the full chain |
| `ForwardStats.BalanceBefore` | scripts/plateau_research/measure.py:126-131 | a balance query reads the last chain balance before the moment and the cut |
| `ForwardStats.SpanTelescopes` | scripts/plateau_research/measure.py:167-208 | funding, results and fees between two moments telescope to the balance difference |
| `ForwardMeaning.BalanceMeans` | scripts/plateau_research/measure.py:114-131 | the balance before a moment is that of the last action by time and then id, among those with a balance before the moment and the tail cut, or the initial one |
| `ForwardMeaning.FundingMeans` | scripts/plateau_research/measure.py:247-257 | a balanced action's funding is measured against the last balanced action before it by time and then id, or the initial balance; other actions have none |
| `ForwardMeaning.SumsMean` | scripts/plateau_research/measure.py:178-205 | the three sums run over the window's actions, each once: results of decreasing and closing ones, all fees, and known fundings |
| `ForwardStats.CheckDifference` | scripts/plateau_research/measure.py:167-208 | for all inputs the check difference equals the unexplained residuals minus what the tail cut hides |
| `ForwardStats.CheckIsOtherResults` | scripts/plateau_research/measure.py:178-205 | in a window before the cut, with a balance on every action, the check difference is exactly the result booked on actions other than decreased and closed |
| `ForwardStats.WeeklyChanges` | scripts/plateau_research/measure.py:183-188 | the weeks cover the window without gap and their changes sum to the whole balance change |
| `ForwardMeaning.WeekMeans` | scripts/plateau_research/measure.py:183-188 | a week is 604,800,000 milliseconds, and the last one ends with the window |
| `ForwardStats.ForwardCheck` | scripts/plateau_research/measure.py:167-208 | the reported sums, difference and weeks satisfy both conservation laws together |
| `PortfolioBank.BankIsLeast` | src/mrs3/_portfolio_process_worker.py:273-288 | a non-negative bank keeps the loss from the start and from every earlier gain to every later one within the limit exactly when it is at least the computed one |
| `PortfolioBank.BankForPath` | src/mrs3/_portfolio_process_worker.py:273-288 | errors for a limit outside (0, 1) or an empty path, otherwise the least bank for which each gain k satisfies -path[k] <= m * bank and path[i] - path[k] <= m * (bank + path[i]) for all i <= k |
| `PortfolioBank.PathOf` | src/mrs3/_portfolio_process_worker.py:291-305 | the running totals give the gain path of the weights, or the first of the three errors |
| `PortfolioBank.SinglePath` | src/mrs3/_portfolio_process_worker.py:291-305 | with weight 1 on one member and 0 elsewhere the path adds up that member's deltas |
| `PortfolioBank.PathLinear` | src/mrs3/_portfolio_process_worker.py:291-305 | gain paths are linear in the weights |
| `PortfolioBank.BankMix` | src/mrs3/_portfolio_process_worker.py:273-288 | the bank of a mixture of paths is at most the mixture of the banks |
| `PortfolioBank.RequiredBankIsSublinear` | src/mrs3/_portfolio_process_worker.py:273-305 | the required bank of a non-negative combination of weights is at most that combination of required banks, so it is subadditive and convex |
| `PortfolioBank.RequiredBankIsHomogeneous` | src/mrs3/_portfolio_process_worker.py:273-305 | scaling the weights by a positive factor scales the required bank by it |
| `Bootstrap.DrawIndices` | src/mrs3/_portfolio_process_worker.py:314-339 | the array loop draws the circular path of the seed triple's stream and counts its restarts |
| `Bootstrap.PathIsRuns` | src/mrs3/_portfolio_process_worker.py:331-338 | the index path is the concatenation of restart count + 1 circular runs |
| `Bootstrap.CoverBits` | src/mrs3/_portfolio_process_worker.py:367-368 | setting bits index by index sets exactly the indices seen, and keeps the earlier ones |
| `Bootstrap.MaskMeaning` | src/mrs3/_portfolio_process_worker.py:357-368 | bit i of a batch's mask is set exactly when some scenario of the batch drew i |
| `Bootstrap.OrAssociative` | src/mrs3/_portfolio_process_worker.py:367-368 | merging masks is associative |
| `Bootstrap.ScenarioBatch` | src/mrs3/_portfolio_process_worker.py:342-384 | a batch's banks, restart count and mask are those of its scenarios; otherwise the error is that of the family length, the restart probability or the drawdown limit, in that order |
| `BootstrapMeaning.RunnableMeans` | src/mrs3/_portfolio_process_worker.py:314-330 | step and block length decide whether a batch runs: their quotient in minutes is the restart probability and has to lie in (0, 1] |
| `BootstrapMeaning.BitMeans` | src/mrs3/_portfolio_process_worker.py:367-368 | the bits of a mask: the parity first, then those of its half |
| `BootstrapMeaning.OneScenario` | src/mrs3/_portfolio_process_worker.py:314-384 | one scenario: positions drawn or continued circularly from the seed triple's stream, as many restarts as variates below the probability, the positions as mask bits, and for every vector the least bank of the gains its increments at those positions add up to |
| `Bootstrap.SplitBanks` | src/mrs3/_portfolio_process_worker.py:357-373 | banks of consecutive batches concatenate |
| `Bootstrap.SplitCounts` | src/mrs3/_portfolio_process_worker.py:357-368 | restart counts add and masks join over consecutive batches |
| `Bootstrap.SplitAnywhere` | src/mrs3/_portfolio_process_worker.py:342-384 | any partition into consecutive batches merges to the result of one batch |
| `BatchBridge.Bridge.SubmitAll` | src/mrs3/_portfolio_process_worker.py:187-195 | submits in order and stops at the first submission that is not accepted; if the pool refuses it, the failure is the one the pool gave |
| `BatchBridge.RunMeans` | src/mrs3/_portfolio_process_worker.py:183-208 | with k accepted submissions the failure is that of the refused one, or otherwise that of the first future to fail in completion order; an interrupt counts from the submission or from any accepted future |
| `BatchBridge.Bridge.RunOnce` | src/mrs3/_portfolio_process_worker.py:183-208 | whatever the pool does, the results are exactly the values of the accepted futures that finished, in completion order, each index once; the failure is the refusal or the first failed completion, none exactly when all tasks finished; an interrupt anywhere closes the bridge |
| `BatchBridge.FinishedMeans` | src/mrs3/_portfolio_process_worker.py:196-206 | a value is among those results exactly when its future was accepted and finished |
| `BatchBridge.FinishedInOrder` | src/mrs3/_portfolio_process_worker.py:196-206 | the results are the values of the finished futures, each once, in completion order |
| `BatchBridge.MissingMeans` | src/mrs3/_portfolio_process_worker.py:213-216 | the tasks submitted again are those without a result under their index, in their order |
| `BatchBridge.Bridge.Retry` | src/mrs3/_portfolio_process_worker.py:212-216 | only unfinished tasks are submitted again, each once; the results are the earlier ones followed by all that the second run finished |
| `BatchBridge.Bridge.Call` | src/mrs3/_portfolio_process_worker.py:210-219 | retries exactly when no interrupt arrives and the pool refuses a submission as broken, or accepts all and the first future to fail does so because the pool is broken; what finished before is kept in full and submitted only once; a normal return is the value of every task in index order; a raised failure is the last run's and carries exactly what both runs finished; an interrupt in either run closes the bridge |
| `BatchBridge.AnswersMean` | src/mrs3/_portfolio_process_worker.py:219-219 | the answers are the values of all tasks and nothing else, by strictly ascending index |
| `BatchBridge.SortedValuesAreAnswers` | src/mrs3/_portfolio_process_worker.py:219-219 | a complete result list, sorted by index, can only be the answers |
| `BatchBridge.JoinComplete` | src/mrs3/_portfolio_process_worker.py:212-216 | the two runs together are complete exactly when the second finished all that was missing |
| `RegimeFacts.HwmIsEarliestMaximum` | scripts/analyze_equity_regime_m3.py:167-175 | a mark is the largest value up to its boundary with the earliest time it was reached |
| `RegimeFacts.StageRises` | scripts/analyze_equity_regime_m3.py:144-175 | a stage interval holds a strict record exactly when the mark rises between its boundaries |
| `RegimeFacts.HitsJoin` | scripts/analyze_equity_regime_m3.py:150-161 | the records of adjacent stages, in order, are those of the joint stage |
| `RegimeScan.Scan` | scripts/analyze_equity_regime_m3.py:139-166 | the one pass yields the stage counters, records, falls and first severity clause of the whole curve |
| `RegimeScan.HighMark` | scripts/analyze_equity_regime_m3.py:167-175 | the largest value among the earlier points, then the first point that has it, give the mark of the boundary |
| `RegimeScan.FirstLargestIsMark` | scripts/analyze_equity_regime_m3.py:169-172 | the first entry of the filtered points with the largest value is the earliest maximum of the whole curve up to the boundary |
| `RegimeScan.WindowFall` | scripts/analyze_equity_regime_m3.py:176-182 | the largest fall of the window and its anchor is the deepest fall in view |
| `RegimeScan.SevereIs` | scripts/analyze_equity_regime_m3.py:145-166 | both severity clauses together mean a 23 percent fall in the 14-day view, anchor included, at or after some record |
| `RegimeScan.AtFacts` | scripts/analyze_equity_regime_m3.py:117-195 | the facts, or the first of the three reasons not to evaluate |
| `RegimeScan.Validate` | scripts/analyze_equity_regime_m3.py:202-225 | refused exactly for a reversed interval, a faulty sample, whose first one decides the reason (the parser's own message for a text that is no number), or a nonpositive value; accepted curves are ordered and positive |
| `RegimeScan.CurveFacts` | scripts/analyze_equity_regime_m3.py:198-235 | an unacceptable curve gets its one objection; an acceptable one the facts of all its points and, when asked and ready, of its two prefixes |
| `RegimeMeaning.FallAtMost` | scripts/analyze_equity_regime_m3.py:159-160 | for positive values a fall is at most b percent exactly when 100 times the value is at least 100 - b times every value up to it |
| `RegimeMeaning.DrawdownsMean` | scripts/analyze_equity_regime_m3.py:158-194 | the 14-day, 7-day and whole drawdowns are the least percentages that no pair of points with the later one in view exceeds, and severity is a pair that loses 23 percent in the 14-day view at or after some record |
| `RegimeMeaning.ReadyMeans` | scripts/analyze_equity_regime_m3.py:137-194 | counts, first and last records of the three stages, the four marks and the held breakout of ready facts by the points themselves, with the boundaries in microseconds |
| `RegimeMeaning.ReadinessMeans` | scripts/analyze_equity_regime_m3.py:117-128 | the facts are ready exactly for a curve whose first point is 28 days old at the end and to which the quality calculation, unless cached, does not object |
| `RegimeMeaning.AcceptableMeans` | scripts/analyze_equity_regime_m3.py:202-225 | a curve is evaluated exactly when the interval is not reversed and every sample has a time inside it, in order, an ascending index and a positive finite value |
| `RegimeMeaning.ObjectionMeans` | scripts/analyze_equity_regime_m3.py:207-222 | the reason given is that of the first sample that does not pass, its own checks in the program's order |
| `RegimeReplay.StageCountsAreRises` | scripts/analyze_equity_regime_m3.py:137-175 | for ready facts each of the three counters is positive exactly when its two marks differ upwards |
| `RegimeReplay.HeldIsCloseAboveMark` | scripts/analyze_equity_regime_m3.py:183-184 | a held weekly breakout is a close above the T-7 mark and needs no stage counter |
| `RegimeReplay.ReplayAgrees` | scripts/equity_regime_m3_replay.py:129-175 | replaying facts never raises a mismatch, objects to ready facts in nothing, and finds a strict increase exactly when all three stages have a record |
| `RegimeReplay.ReplayMeans` | scripts/equity_regime_m3_replay.py:129-175 | for any frozen row: an error exactly when its breakout flag contradicts its stage, close and mark, otherwise one objection for each missing fact |
| `RegimeReplay.DrawdownsNest` | scripts/analyze_equity_regime_m3.py:176-194 | the 7-day fall is within the 14-day one, that within the largest, and severity shows in the 14-day figure |
| `RegimeReplay.PrefixesAgree` | scripts/analyze_equity_regime_m3.py:228-235 | ready prefixes share their marks and stages with the full curve, events included, and the T-14 prefix's last two stages join to the full curve's first |
| `RegimeReplay.PrefixNeverLooksAhead` | scripts/analyze_equity_regime_m3.py:231-234 | points after the cutoff, whatever they are, do not change a prefix |
| `RegimeVerdict.VerdictMeans` | scripts/analyze_equity_regime_m3.py:238-274 | declining is exactly the severity flag; growing or weakening needs three rising marks and a close above the last; a resumption needs that close and an earlier stall |
| `RegimeVerdict.DirectionMeans` | scripts/analyze_equity_regime_m3.py:66-76 | for a tolerance that is not negative a window is up, down or flat exactly when both changes are, in any order of the tests |
| `RegimeVerdict.ClassifyMeans` | scripts/analyze_equity_regime_m3.py:238-274 | each verdict by its conditions, whatever the order of the branches: a clear curve is paused exactly when it does not break out, resumed when it does after a stall that growth has not overcome, and growing or weakening exactly when it grows with no stall open |
| `RegimeVerdict.StallsNeedResumption` | scripts/analyze_equity_regime_m3.py:257-274 | over runs of any length nothing grows or weakens after a stall unless a resumption has followed a stall |
| `GroupStream.Take` | scripts/analyze_equity_regime_m3.py:283-304 | one row either extends the state of the rows so far or stops with the error that applies |
| `GroupStream.GroupStream` | scripts/analyze_equity_regime_m3.py:277-309 | succeeds exactly on expected ids in non-descending order, then yields every expected id once, ascending, with its own rows; the reopened error never fires |
| `GroupStream.ChunkIndependence` | scripts/analyze_equity_regime_m3.py:282-283 | chunk boundaries of a faulty cursor change neither the groups yielded nor the error nor where it stops |
| `GroupStream.RowsOfMeans` | scripts/analyze_equity_regime_m3.py:277-309 | a group holds exactly the rows of its id, each once, in cursor order |
| `GroupStream.CleanMeans` | scripts/analyze_equity_regime_m3.py:283-291 | a cursor raises no error exactly when all ids are expected and no row follows one of a larger id |
| `GroupStream.RowsAreConserved` | scripts/analyze_equity_regime_m3.py:277-309 | the groups hold as many rows as the cursor delivered |
| `ShortlistMeaning.DominatesMeans` | src/mrs3/analysis_shortlist.py:150-165 | dominance over the four vectors by name: the same key, at least as good everywhere on every enabled one, and better somewhere on one of them |
| `Shortlist.MinimumTestIsRedundant` | src/mrs3/analysis_shortlist.py:150-165 | the extra minimum test on close support never changes a verdict |
| `Shortlist.DominanceIsTransitive` | src/mrs3/analysis_shortlist.py:150-165 | dominance is transitive |
| `Shortlist.CombinedShowsAlone` | src/mrs3/analysis_shortlist.py:150-165 | whoever dominates on all enabled criteria dominates on one of them alone |
| `Shortlist.ChainsDominate` | src/mrs3/analysis_shortlist.py:243-255 | along deferral links every later candidate dominates every earlier one, so no candidate comes back |
| `Shortlist.ChainEndsReady` | src/mrs3/analysis_shortlist.py:243-255 | from any candidate the links end at a ready candidate that dominates it |
| `Shortlist.DeferrerIsUnique` | src/mrs3/analysis_shortlist.py:253-253 | with unique identifiers the named deferrer is the only one that fits |
| `Shortlist.GroupDecides` | src/mrs3/analysis_shortlist.py:232-252 | a group alone decides who of its members is ready and who defers them |
| `Shortlist.AuditRows` | src/mrs3/analysis_shortlist.py:243-255 | one row for each dominated member, naming its least dominator, and no other row |
| `Shortlist.StandaloneRows` | src/mrs3/analysis_shortlist.py:186-197 | the same for one criterion, sorted by key and candidate |
| `ShortlistMeaning.AuditOrder` | src/mrs3/analysis_shortlist.py:197-197 | audit rows come by the key and then the identifier of the deferred candidate |
| `Shortlist.Filter` | src/mrs3/analysis_shortlist.py:232-293 | ready rows are exactly the undominated candidates, the combined and standalone lists hold exactly the dominated ones in order, and the counts add up |
| `ShortlistMeaning.DeferrerMeans` | src/mrs3/analysis_shortlist.py:249-254 | the named deferrer is the dominator of the least structure and then the least identifier |
| `ShortlistMeaning.ListMeans` | src/mrs3/analysis_shortlist.py:256-293 | every candidate has one row, by key and then identifier, with the number of candidates of its key and either no dominator or its deferrer |
| `Shortlist.CombinedDeferralStandsAlone` | src/mrs3/analysis_shortlist.py:234-255 | every combined deferral also stands in the standalone list of an enabled criterion |
| `EquityQuality.Effective` | scripts/benchmark_equity_quality.py:79-89 | sorting and overwriting keeps exactly the last point of every timestamp |
| `QualityMeaning.DeduplicatedMeans` | scripts/benchmark_equity_quality.py:79-89 | the kept points ascend strictly in time and are, for every time, one of the highest index |
| `QualityMeaning.EquityAtMeans` | scripts/benchmark_equity_quality.py:79-94 | the equity at a moment is that of the latest point not after it, by time and then index; there is none exactly when all are later |
| `EquityQuality.LookupFindsLast` | scripts/benchmark_equity_quality.py:92-94 | the bisected lookup finds the equity of the last raw point up to the moment |
| `EquityQuality.Grid` | scripts/benchmark_equity_quality.py:97-106 | ascending nodes from start to end in equal steps, the last one possibly shorter |
| `EquityQuality.LossWithinDrawdown` | scripts/benchmark_equity_quality.py:140-145 | no loss from a value to a later one exceeds the drawdown of the loop |
| `EquityQuality.DrawdownIsALoss` | scripts/benchmark_equity_quality.py:140-145 | the drawdown is one of those losses and below 1 |
| `EquityQuality.ThinnedIsNoDeeper` | scripts/benchmark_equity_quality.py:150-161 | dropping values deepens neither drawdown nor peak |
| `EquityQuality.AnchorsAreReportPoints` | scripts/benchmark_equity_quality.py:133-139 | where no anchor is inserted, the report's own points are the terminal and the base |
| `QualityMeaning.RiskMeans` | scripts/benchmark_equity_quality.py:140-145 | on a positive path the peak is the largest value and the drawdown the least share that covers the loss from every value to every later one |
| `QualityMeaning.MetricMeans` | scripts/benchmark_equity_quality.py:133-162 | drawdown and peak gap of the metric, and what they exceed those of the thinned path by, as least covering shares of the two anchored paths |
| `QualityMeaning.ReportMeans` | scripts/benchmark_equity_quality.py:133-133 | the risk path's points are those of the report interval, each as often as given, by time and then index |
| `QualityMeaning.AnchoredMeans` | scripts/benchmark_equity_quality.py:134-139 | the path is those equities, after the base unless a point stands at the start, before the terminal equity unless one stands at the end |
| `EquityQuality.RawDominates` | scripts/benchmark_equity_quality.py:133-162 | raw drawdown and peak gap are at least the deduplicated ones, and peak gap is at most drawdown, below 1 |
| `EquityQuality.EfficiencyIsARatio` | scripts/benchmark_equity_quality.py:128-131 | a path through zero has its end within its length, so the ratio lies in [-1, 1] |
| `QualityMeaning.EfficiencyMeans` | scripts/benchmark_equity_quality.py:128-131 | the ratio times the summed distances between neighbours is the last value; it is 0 for a path that never moves |
| `QualityMeaning.LogsMean` | scripts/benchmark_equity_quality.py:122-122 | the logarithm is taken of the ratio to the base |
| `EquityQuality.ComputeMetric` | scripts/benchmark_equity_quality.py:109-171 | answers exactly when a point precedes the start; its figures are those of the grid and the anchored paths and obey those bounds whatever the duplicates |
| `Sorting.SortedSet` | scripts/analyze_equity_regime_m3.py:280-280 | ascending list of exactly the members |
| `Sorting.SortIsSorted` | scripts/plateau_research/measure.py:114-115 | the sort by a pair of numbers is sorted and a permutation |
| `Sorting.SortIsStable` | scripts/plateau_research/measure.py:114-115 | elements of one key keep their order |
| `Sorting.WhereSort` | scripts/benchmark_equity_quality.py:133-133 | filtering commutes with the stable sort |

## Left out

- SQL, parquet, HTML parsing, workbook files, process start-up, timing and memory counters: only the in-memory state and the stored rows they update are modelled.
- Rounding of `Decimal` and float values in means, percentages, banks and drawdowns: exact reals; only `calculate_base_lot` is modelled on digits.
- BaseLotAccepts: the interpreter's limit on converting digit strings to integers and the exponent limits of the decimal context, beyond which the program raises, are not modelled.
- SHA-256 collisions and equal 24-digit prefixes of report and point identifiers; database constraint failures other than a stored canonical key.
- FillQueue: an executor that refuses a submission is modelled as the raise that rolls the open batch back; interrupts inside the importer's loop are not.
- Ids, symbols, comparison keys, dates and messages are numbers or opaque values; their texts, order-preserving for identifiers, are not modelled.
- Dominates: requires candidates of one comparison key to have equally many values per criterion; with an explicit `order_count` that disagrees with the orders the program compares a prefix or raises an index error.
- Filter: the unknown-criterion, event-mode and event-membership errors, `comparable_count` and the payload columns of the rows are not modelled.
- Migrate: cell styles, comments, number formats, column widths and filters are not modelled; a date-time header counts as its date.
- Export: file locking and the signature check between reading and saving, malformed symbol names and `lot_source` answers for another symbol or date are not modelled; the sheet is read and migrated once instead of twice.
- AtFacts: window metrics, the grid-missed-peak flag and the pre-28 metric belong to the quality calculation, which is not part of this model; `Classify` takes window metrics as given.
- EncodeInvertsDecode: whether streams of equal content are equal byte for byte is zlib's affair; a stream is its content and a tag.
- RowsNameFiles: assumes that a worker's outcome names the file it was given, as `read_compact_record` does; reading and parsing the file are not part of this model.
- Replay: window metrics and everything `assess_equity_regime` does, which is not part of this model.
- `_classify_history` runs three snapshots; `StallsNeedResumption` states its law for runs of any length instead.
- ComputeMetric: trend, endpoint and return figures, and the logarithm itself, which is any function with value 0 at 1.
- Series: the merge of equity samples with flat-out actions is not modelled; its queries are stated for every chronological curve. `rolling_drawdown_pct`, sample-based figures and trade counts are left out.
- Bridge: the context file, shared pools and pool widths; an evaluator is a pure function of a task's members.
- Statistical studies, reports, panels and slope numerics: no decided specification, or only easy members.
