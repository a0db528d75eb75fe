# Binary statistics: the metric rules of `script.py`

`script.py` turns the per-executable tables that an analysis tool writes
(`func-info.csv` has one row per basic block, `inst-data.csv` one per
instruction, `func-leaf.csv` one per function) into two products:

- `summary.csv`, made by `summary_information`: one row of twelve metrics per
  executable directory. The metrics are the mean block size, the largest
  function with its size, block count and instruction count, the mean
  function size, the longest instruction, and the most-referenced block.
- `results.png`, made by `gen_program_results`: a panel of charts per
  executable. The data behind them is top mnemonics, the longest
  instructions, a histogram of instruction lengths, memory-access counts,
  terminator categories, the largest functions, function types, the
  most-referenced blocks, and the instruction-category split.

This project models the descriptive statistics behind both, over tables held
in memory.

- `Tables` holds the three row types and the columns the metrics read.
- `Order` holds the orders pandas lays keys out in:
  - `groupby` sorts integers numerically and strings in Python's code-point order (`StrLess`);
  - `nlargest(keep='first')` ranks by value, earlier position first on ties (`RankOrder`).

  Each of these is proved to be a strict total order.
- `Aggregation` holds the pandas operations, as functions over integer
  columns. They are `groupby(...).sum()` (`GroupSum`), `idxmax` (`ArgMaxFirst`),
  `nlargest` (`TopPositions`, `NLargest`, `TopGroups`), `value_counts`
  (`ValueCounts`, `GroupCount`), `isin` filters (`SumIf`), sums of boolean
  columns (`CountTrue`) and `mean`.
- `Text` holds `split('(')[0]` and `'sub_' + str(x)`, with a proof that `str`
  on integers can be read back.
- `Summary` holds the summary row of one executable (`Summarize`) and the loop
  over the directory listing (`SummaryInformation`). The loop is a method whose
  result is tied to the functions `AggregatedRows` and `ErrorLog`; the
  properties of those functions are proved as lemmas.
- `Report` holds the series behind each panel of the report and the
  instruction-category percentages.

Ties follow the code:

- `groupby` sorts its keys, so the `idxmax` of grouped sums picks the lowest key.
- `idxmax` on a column picks the first row.
- `nlargest` on a grouped series lists equal sums in key order.
- `nlargest` on a table lists equal values in row order.

Functions, blocks, addresses and codes are integer ids. Means and
percentages are `real`. The places where pandas yields NaN or raises are
explicit cases:

- `idxmax` on an empty table leaves the executable without a row, with an error line;
- a zero total count gives no percentages.

## Model

| member | source | states |
|---|---|---|
| Summary.FunctionSizes | script.py:29 | Per-function size sums in ascending id order; every function occurs; each sum is that function's summed Size; the sums add up to the total Size. |
| Summary.LargestFunction | script.py:29-31 | The chosen function occurs in the table, and its reported size is its summed Size. No function is larger, and every function of equal size has an id no lower. |
| Summary.BlocksOf | script.py:32 | The BasicBlock values of the rows of function `f`, one per such row. Every block of `f` occurs, and every listed block belongs to a row of `f`. |
| Summary.BlockCount | script.py:32 | The count is the size of the set of distinct blocks of the function. That set holds exactly the BasicBlock values of the function's rows. The count is at least 1 when the function owns a row, and at most its number of rows. |
| Summary.InstructionsInBlocks | script.py:44-46 | The `Code`-in-blocks sum plus the count of the other rows is the total Count. With non-negative counts it lies between 0 and the total. |
| Summary.LargestInstruction | script.py:35 | The position of a row whose Length is at least every row's; every earlier row is strictly shorter. |
| Summary.MostReferenced | script.py:39 | The position of a row whose ReferenceCount is at least every row's; every earlier row has a strictly smaller count. |
| Summary.Summarize | script.py:28-61 | No row exactly when a table is empty (`idxmax` raises). Otherwise each of the twelve fields has its meaning: the largest function and its size, the mean block and function sizes, and the instruction fields and most-referenced block fields each taken from a single row. |
| Summary.MeanOfRegrouping | script.py:28-33 | Regrouping values into no more groups with the same total does not lower the mean when the total is non-negative. |
| Summary.SummaryAverages | script.py:28-33 | There is at least one function and no more functions than blocks. The function sizes add up to the block sizes. With a non-negative total, the mean function size is at least the mean block size. |
| Summary.ProcessEntry | script.py:16-63 | Non-directories and dot-names are skipped. A load failure, or a failed summary, logs an error that names the entry. Otherwise the entry's row is its summary. |
| Summary.Outcomes | script.py:15 | One outcome per listing entry, in listing order. What the outcomes promise about the summary rows is stated by `SummaryFollowsListing`. |
| Summary.SummaryInformation | script.py:13-63 | The loop's list of rows and its printed errors are exactly those of the listing, entry by entry. |
| Summary.RowsFollowOutcomes | script.py:48 | Row k comes from outcome Origins[k]. The origins are increasing, and an outcome at no origin produced no row. |
| Summary.SummaryFollowsListing | script.py:15-63 | At most one row per entry, in listing order. Row k is what entry Origins[k] produced, and every other entry was skipped or failed. |
| Summary.FailedEntryHasNoRow | script.py:62-63 | An entry that fails gets no row, and an error line naming it is printed. |
| Summary.ErrorLogHasEntry | script.py:62-63 | The error of a failing entry appears in the printed log. |
| Summary.ErrorsOfHasEntry | script.py:62-63 | Every logged outcome's error is among the printed errors. |
| Aggregation.GroupSum | script.py:29 | `groupby().sum()` (also lines 176, 195 and 220): keys strictly sorted, exactly the keys that occur, each with its summed value; the sums add up to the column sum. |
| Aggregation.GroupArgMax | script.py:30-31 | `idxmax` of a grouped sum picks a key with a largest sum; among keys with that sum it picks the first in key order. |
| Aggregation.ArgMaxFirst | script.py:35 | A position holding the maximum, with every earlier position strictly smaller. |
| Aggregation.TopPositions | script.py:141 | `nlargest(n)` (also under lines 132, 177 and 196) keeps `min(n, len)` distinct positions, ordered by non-increasing value and earlier position on ties. No omitted position beats a kept one, and all positions are kept when `n` covers the series. |
| Aggregation.TopGroups | script.py:132 | `groupby().sum().nlargest(n)` satisfies `IsTopGroups`: at most `n` entries, each a key that occurs with its sum, values non-increasing with ties in key order. Every omitted key has a smaller sum, or an equal sum and a later key. Its length is `min(n, number of keys)`. |
| Aggregation.GroupCount | script.py:150 | Each value that occurs, sorted, once, with its number of occurrences (at least 1); the counts add up to the row count. |
| Aggregation.ValueCounts | script.py:167 | Each value that occurs, once, with its number of occurrences, most frequent first; the counts add up to the row count. |
| Aggregation.SumIfPartition | script.py:221-222 | The rows inside a set and those outside it together make up the column sum. |
| Aggregation.SumIfBounded | script.py:44-46 | With non-negative values, each side of the partition lies between 0 and the column sum. |
| Aggregation.CountTruePermutation | script.py:158 | The number of rows that set a flag does not depend on the row order. |
| Aggregation.WithRemainder | script.py:222-223 | For a key the series does not hold yet, the key is appended last with the total less the existing sum. Every existing entry is kept, and the series then adds up to the total. |
| Aggregation.NLargest | script.py:177 | `Series.nlargest(n)` (also lines 132 and 196) lists `min(n, len)` entries, each the entry at the matching position of `TopPositions`. The values are non-increasing, and no omitted value exceeds a listed one. |
| Aggregation.Mean | script.py:28 | The mean times the number of values is the sum. |
| Order.StrLessIsStrictTotalOrder | script.py:132 | Python's string order is irreflexive, transitive and connected. |
| Order.RankOrderIsStrictTotalOrder | script.py:141 | The `nlargest` ranking of positions is a strict total order. |
| Text.TerminatorType | script.py:166 | The category is a prefix of the terminator and contains no `(`; when shorter, the next character is `(`. |
| Text.TerminatorTypeUnique | script.py:166 | Those three properties determine the category. |
| Text.IntToStringRoundTrip | script.py:178 | `str(x)` is a sign and digits, and reading it back yields `x`. |
| Text.FunctionLabel | script.py:178 | The label is `sub_` followed by `str(id)`. `FunctionLabelInjective` proves that distinct ids get distinct labels. |
| Text.FunctionLabelInjective | script.py:178 | Distinct ids get distinct labels. |
| Report.TopMnemonics | script.py:132 | At most ten mnemonics, those of largest summed Count, with the top-N properties; ties go in string order. |
| Report.LargestInstructions | script.py:141 | At most 11 of the longest instruction rows, with their positions, in the order of `TopPositions`; each listed row is the table's row at that position. |
| Report.LargestInstructionsLead | script.py:141 | The first listed instruction is the one the summary reports as largest (`idxmax` of Length, line 35). |
| Report.LengthCounts | script.py:150 | Each length that occurs, ascending, with the number of instructions of that length; the counts add up to the number of instructions. |
| Report.MemoryAccessCounts | script.py:158 | The four flag labels in column order, each with the number of rows that set the flag (between 0 and the row count). `MemoryAccessCountsOrderFree` proves the counts do not depend on the row order. |
| Report.MemoryAccessCountsOrderFree | script.py:158 | Reordering the instruction rows leaves the counts unchanged. |
| Report.TerminatorTypeColumn | script.py:166 | One category per block: `TerminatorType` of its terminator, which is a `(`-free prefix of it. |
| Report.TerminatorCounts | script.py:166-167 | Every block's category is listed once, with its number of blocks, most frequent first. No category contains `(`, and the counts add up to the number of blocks. |
| Report.TopFunctionIds | script.py:176-177 | At most ten functions, those of largest summed size, with the top-N properties; each value is the function's summed size. |
| Report.TopFunctions | script.py:178 | The same entries relabelled `sub_<id>`, with the same sizes; no two labels coincide. |
| Report.TopFunctionIdsLead | script.py:177 | The first of the top functions is the function the summary reports as largest (lines 29-31), with the same size. |
| Report.FunctionTypeCounts | script.py:187 | The three flag labels in column order, each with the number of functions that set the flag. `FunctionTypeCountsOrderFree` proves the counts do not depend on the row order. |
| Report.FunctionTypeCountsOrderFree | script.py:187 | Reordering the function rows leaves the counts unchanged. |
| Report.TopReferencedBlocks | script.py:195-196 | At most 15 blocks, those of largest summed ReferenceCount, with the top-N properties. |
| Report.CategoryLessIsNameOrder | script.py:220 | The category order is Python's order of the label texts, the order `groupby` sorts them in. |
| Report.CategoryOf | script.py:216-218 | Every listed mnemonic is labelled "Control Flow and Data Movements". |
| Report.FilteredRows | script.py:215 | The filtered rows' Count adds up to the Count of the rows whose mnemonic is in the set, one row at most once (so the duplicate `Jne` does not double-count). |
| Report.FilteredRowsMembers | script.py:215 | A row survives the filter exactly when its mnemonic is listed. |
| Report.CategoryColumn | script.py:216-218 | One category per filtered row, that of its mnemonic. No row is in "Other Instructions". |
| Report.CategoryCounts | script.py:220-223 | The category series adds up to the total Count. `CategoryCountsShape` gives its entries. |
| Report.NoRemainderKey | script.py:223 | The grouped series has no "Other Instructions" entry, so line 223 adds a new entry rather than overwriting one. |
| Report.SplitCountsShape | script.py:215-223 | When every kept mnemonic gets one label, the series has that label with the kept Count (when some row is kept), then "Other Instructions" with the Count of all other rows. |
| Report.CategoryCountsShape | script.py:211-223 | The report's series is "Control Flow and Data Movements" with the Count of listed mnemonics (present exactly when one occurs), then "Other Instructions" with the rest. The label "Other" never appears, and no label repeats. |
| Report.Share | script.py:224 | The percentage times the total is 100 times the count. |
| Report.ShareAdd | script.py:224 | Percentages of parts add up to the percentage of their sum. |
| Report.ShareBounds | script.py:224 | A part between 0 and the total is between 0 and 100 percent. |
| Report.Shares | script.py:224 | `(s / total) * 100`: the same keys in the same order, each with its count's share of the total. |
| Report.SharesSum | script.py:224 | The percentages of a series add up to the percentage of its sum. |
| Report.CategoryPercentages | script.py:224-226 | Nothing when the total Count is 0. Otherwise each category's label with its count as a percentage of the total. `CategoryPercentagesTotal` proves these add up to 100. |
| Report.CategoryPercentagesTotal | script.py:221-224 | With a non-zero total, the category percentages add up to 100. |
| Report.CategoryPercentagesBounded | script.py:224 | With non-negative counts, each category's percentage lies between 0 and 100. |

## Left out

- Filesystem and CSV I/O (`os.listdir`, `os.walk`, `os.path.isdir`, `read_csv`, `to_csv`, `savefig`) are not modelled. The listing is a sequence of entries, each with a directory flag, a name and its tables if both loaded.
- The loader's failures are not modelled individually (a missing file, a missing column, a bad value). They are folded into one `LoadFailed` case, and the printed message text is not modelled.
- `gen_program_results` calls `read_csv` outside its `try`, so a load failure there is not caught. The report functions take loaded tables and have no error path of their own. The walk over `os.walk` and the check that all three files are present are not modelled.
- Plotting, titles, watermarks and layout are not modelled.
- `basic_block_info` is not modelled: it feeds scatterplots with `describe()` statistics over floating point.
- The log-scale 30-bin histogram of block sizes (script.py:205) is not modelled: it is seaborn's floating-point bucketing.
- Floating point is not modelled: means and percentages are exact `real` values. Formatting and pandas dtype coercion are also left out.
- Report.TerminatorCounts: pandas fixes no order among categories of equal count. The model lists them in string order; the contract states only that counts are non-increasing.
- Report.CategoryPercentages: a zero total gives NaN or infinity in pandas; the model returns `None` instead.
- Identifiers (Function, BasicBlock, Address, Code) are modelled as integers, not strings. The reason is that line 178 renders a function id with `str(x)` behind `sub_`, which only makes sense for a numeric id, and the summary joins `Code` against BasicBlock ids (lines 44-46). Sizes and counts are unbounded integers, so 64-bit overflow is not modelled.
- Empty CSV cells (NaN) are not modelled: every cell holds a value of its column's type. In pandas an empty `Terminator` cell makes the `split` at line 166 raise, which abandons that directory's whole report (lines 245-246). The model's empty string is an ordinary terminator with no pandas counterpart for that case.
- The in-place updates (the `TerminatorType` column, the relabelled index, the inserted `Other Instructions` entry) are modelled as new values: no other code observes the old ones.
- The "largest instructions" panel is titled "Top 10", but the code keeps 11 rows (script.py:141). The model keeps 11, as the code does.
- Ties among mnemonics of equal summed Count are not broken by table order. `groupby` sorts the mnemonics before `nlargest` ranks them (script.py:132), so equal sums are listed in mnemonic order, and the model follows that.
