# Connection status history (ecl2df `wellconnstatus`)

A Dafny model of the core of `ecl2df/wellconnstatus.py`. The module turns the
dense connection productivity index (CPI) vectors of an Eclipse summary file
into a sparse table of status changes. Each row records the date on which one
well-to-cell connection opens or shuts.

The model has four parts:

- **Transition detector** (`Detector`, `detector.dfy`). `_get_status_changes`
  scans the zipped `(date, value)` observations once. The previous value starts
  at 0. The scan emits `(date, OPEN)` when the value is positive and the previous
  value is 0. It emits `(date, SHUT)` when the previous value is positive and the
  value is 0. Otherwise it emits nothing.
  - `StatusChanges` is the scan written as a recursion.
  - `GetStatusChanges` is the loop as written, proved equal to that recursion.
  - `EventIndices` / `EventsUpTo` give an independent reading by index, and
    `StatusChangesCharacterised` proves that both readings agree.
- **Properties** (`DetectorProperties`, `detector_properties.dfy`). These are the
  promises of the module docstring:
  - statuses alternate and the first change is OPEN;
  - a connection that never flows has no changes, and, over non-negative
    values, a connection without changes never flows;
  - a connection that always flows has exactly one change, OPEN on the first date;
  - over non-negative values, the last change is OPEN exactly when the last
    value is positive.
- **Key handling** (`ConnectionKey`, `connection_key.dfy`, on top of Python's
  `str.split` in `PyStr`, `pystr.dfy`). This is the filter
  `^CPI:[A-Z0-9_-]{1,8}:[0-9]+,[0-9]+,[0-9]+$` and the split of an accepted key
  into well, i, j and k, which stay strings. The filter and split are proved
  inverse to rendering a key from its fields.
- **Aggregation** (`Aggregator`, `aggregator.dfy`). `df` without the file
  reading: keep the CPI columns, then for each one append one row
  `[date, well, i, j, k, status]` per status change.

Inputs take the place of the summary file: a shared date sequence, of any type
`D`, and an ordered sequence of `Column(key, values)`. Values are `real`.

In these places the code behaves in ways a reader might not expect. The model
follows the code:

- `zip` stops at the shorter of the dates and the values. The model does the
  same (`Span`); it does not reject sequences of different lengths.
- A negative value is not treated as 0. It is neither `> 0` nor `== 0`, so
  nothing is emitted at a negative value, nor at the observation just after
  it (`NegativeSilences`). Alternation can then fail
  (`NegativeBreaksAlternation`). The alternation, converse-exclusion and
  last-change results therefore assume non-negative values.
- `i`, `j` and `k` are digit strings, possibly with leading zeros. They are not
  positive integers. A well name's letters are upper-case only; it may also
  contain digits, `_` and `-`.
- Python's `$` also matches just before a single newline that ends the string.
  So `CPI:OP_1:3,4,5\n` passes the filter, and its `k` field is `"5\n"`
  (`TrailingNewlineAccepted`). Keys read from a summary file do not end in a
  newline.

## Model

| member | source | states |
|---|---|---|
| Detector.Span | ecl2df/wellconnstatus.py:59 | `zip` yields as many observations as the shorter input: the count is at most either length and equals one of them |
| Detector.StatusChanges | ecl2df/wellconnstatus.py:51-65 | at most one change per zipped observation: no more changes than observations |
| Detector.Emit | ecl2df/wellconnstatus.py:60-63 | the `append` of lines 61 and 63: a decision appends at most one change, dated with the observation's date; its contents per index are stated by `StatusChangesCharacterised` |
| Detector.Scan | ecl2df/wellconnstatus.py:57-65 | the scan from any previous value emits at most one change per zipped observation |
| Detector.Step | ecl2df/wellconnstatus.py:60-63 | the if/elif decision at one observation; no contract of its own, its meaning per index is stated by `StatusAt` |
| Detector.StatusAt | ecl2df/wellconnstatus.py:60-63 | the decision at index t is OPEN exactly when the value is positive and the one before it (0 at t = 0) is 0, SHUT exactly when the one before is positive and the value is 0, and nothing otherwise |
| Detector.EventIndices | ecl2df/wellconnstatus.py:59-64 | the event indices among the first n observations are strictly increasing, each carries a change, and every index that carries a change is among them |
| Detector.EventsUpToByIndex | ecl2df/wellconnstatus.py:59-64 | accumulating changes front to back lists, for each event index in order, the change at that index dated with that index's date |
| Detector.ScanResumes | ecl2df/wellconnstatus.py:58-64 | the scan resumed after n observations, with the value at n-1 as the previous value, completes the changes of the first n observations |
| Detector.StatusChangesByIndex | ecl2df/wellconnstatus.py:57-65 | the recursive scan equals the front-to-back accumulation over all zipped observations |
| Detector.StatusChangesCharacterised | ecl2df/wellconnstatus.py:59-64 | the result has one change per event index, in increasing index order, each dated `dates[t]` with the status decided at t |
| Detector.GetStatusChanges | ecl2df/wellconnstatus.py:57-65 | the loop with `prev_value` starting at 0 returns exactly the scan's result |
| DetectorProperties.ScanAlternates | ecl2df/wellconnstatus.py:58-64 | over non-negative values, from a non-negative previous value, statuses alternate, starting with SHUT if the previous value is positive and with OPEN otherwise |
| DetectorProperties.StatusChangesAlternate | ecl2df/wellconnstatus.py:3-5 | over non-negative values the first change is OPEN and consecutive changes differ: a cell cannot be SHUT before it has been OPEN |
| DetectorProperties.NegativeBreaksAlternation | ecl2df/wellconnstatus.py:60-63 | the values 1, -1, 0, 1 give two consecutive OPEN changes, so alternation needs non-negative values |
| DetectorProperties.NegativeSilences | ecl2df/wellconnstatus.py:60-64 | a negative value emits nothing at its own index, and, as the next previous value, nothing at the following index either |
| DetectorProperties.ScanNeverPositive | ecl2df/wellconnstatus.py:58-64 | from a previous value of at most 0, values that never exceed 0 give no change |
| DetectorProperties.NeverOpenExcluded | ecl2df/wellconnstatus.py:5-6 | a connection whose indicator never exceeds 0 (all zero in particular) has no changes and is excluded |
| DetectorProperties.PositiveOpens | ecl2df/wellconnstatus.py:60-61 | in a non-negative series, a non-zero value among the first n means some index among them carries a change |
| DetectorProperties.ExcludedOnlyIfAllZero | ecl2df/wellconnstatus.py:58-64 | a non-negative series with no change has every observed value equal to 0 |
| DetectorProperties.ScanStaysOpen | ecl2df/wellconnstatus.py:60-63 | from a positive previous value, values that stay positive give no change |
| DetectorProperties.AlwaysOpenOpensOnce | ecl2df/wellconnstatus.py:58-61 | a series positive at every observation yields exactly one change, OPEN on the first date, because the previous value starts at 0 |
| DetectorProperties.ScanLast | ecl2df/wellconnstatus.py:58-64 | over non-negative values, a non-empty scan ends in OPEN exactly when the last value is positive, and an empty one leaves flowing/not flowing as it was |
| DetectorProperties.LastChangeMatchesLastValue | ecl2df/wellconnstatus.py:58-64 | over non-negative values, the last change is OPEN exactly when the last observed value is positive, and the number of changes is odd exactly then |
| DetectorProperties.OpenShutCycle | ecl2df/wellconnstatus.py:57-65 | values 0,0,5,5,0,3,0 give OPEN at index 2, SHUT at 4, OPEN at 5 and SHUT at 6 |
| PyStr.Split | ecl2df/wellconnstatus.py:38 | `str.split(sep)` returns at least one piece, and no piece contains the separator |
| PyStr.JoinSplit | ecl2df/wellconnstatus.py:38 | joining the pieces of a split with the separator restores the string |
| PyStr.SplitPiece | ecl2df/wellconnstatus.py:38 | a separator-free piece followed by the separator splits off as one piece |
| PyStr.SplitJoin | ecl2df/wellconnstatus.py:38-40 | splitting separator-free pieces joined with the separator gives those pieces back |
| ConnectionKey.IsCpiKey | ecl2df/wellconnstatus.py:33 | the key filter; no contract of its own, `FilterIsPattern` proves it accepts exactly the pattern's strings |
| ConnectionKey.KeyFields | ecl2df/wellconnstatus.py:38-40 | the split of an accepted key into well, i, j, k; no contract of its own, `KeyFieldsRender` and `RenderAccepted` prove it inverse to rendering |
| ConnectionKey.KeyFieldsRender | ecl2df/wellconnstatus.py:38-40 | the well, i, j and k split off an accepted key are well formed and render back to exactly that key |
| ConnectionKey.RenderAccepted | ecl2df/wellconnstatus.py:33-40 | every key rendered from well-formed fields passes the filter, and the split recovers exactly those fields |
| ConnectionKey.FilterIsPattern | ecl2df/wellconnstatus.py:33 | the filter accepts a key exactly when it is `CPI:` + well + `:` + i + `,` + j + `,` + k for well-formed fields |
| ConnectionKey.TrailingNewlineAccepted | ecl2df/wellconnstatus.py:33-40 | `$` lets through one final newline, which ends up in the k field |
| Aggregator.CpiColumns | ecl2df/wellconnstatus.py:30-34 | every kept column has a CPI key, and no more columns are kept than given |
| Aggregator.CpiColumnsMembers | ecl2df/wellconnstatus.py:30-34 | a column is kept exactly when it is given and its key passes the filter |
| Aggregator.CpiColumnsAppend | ecl2df/wellconnstatus.py:30-34 | filtering a concatenation of column lists filters each part |
| Aggregator.TagOne | ecl2df/wellconnstatus.py:46 | the row one status change contributes; no contract of its own, `TagRows` states its fields |
| Aggregator.Tag | ecl2df/wellconnstatus.py:45-46 | the rows appended for one connection; no contract of its own, `TagRows` states their contents |
| Aggregator.ConnectionRows | ecl2df/wellconnstatus.py:37-46 | the rows of one CPI column; no contract of its own, `ConnectionRowsAlternate` states their identity, order and alternation |
| Aggregator.TagRows | ecl2df/wellconnstatus.py:44-46 | one row per change, in order, each with its change's date and status and the connection's well, i, j and k |
| Aggregator.TableRowsAppend | ecl2df/wellconnstatus.py:37-46 | the rows of a concatenation of CPI column lists are the concatenation of their rows |
| Aggregator.TableRowsCount | ecl2df/wellconnstatus.py:37-46 | the row count is the sum of the per-column status-change counts |
| Aggregator.TableRows | ecl2df/wellconnstatus.py:37-46 | the loop over the filtered columns; no contract of its own, `TableRowsAppend`, `TableRowsCount` and `TableRowsMembership` state its block structure, row count and provenance |
| Aggregator.StatusTable | ecl2df/wellconnstatus.py:30-48 | the table `df` returns; no contract of its own, `StatusTableAppend`, `SingleColumn` and `StatusTableMembership` determine it |
| Aggregator.StatusTableAppend | ecl2df/wellconnstatus.py:30-46 | the table over concatenated column lists is the concatenation of their tables, so the key order only moves whole blocks |
| Aggregator.SingleColumn | ecl2df/wellconnstatus.py:30-46 | a single column yields its tagged status changes if its key passes the filter, and nothing otherwise |
| Aggregator.ExcludedColumn | ecl2df/wellconnstatus.py:30-46 | adding a column whose key fails the filter, or whose indicator never exceeds 0, leaves the table unchanged |
| Aggregator.ConnectionRowsAlternate | ecl2df/wellconnstatus.py:37-46 | one connection's rows carry an identity that renders back to its key; over non-negative values they alternate starting with OPEN, and there are no more rows than observations |
| Aggregator.TableRowsMembership | ecl2df/wellconnstatus.py:37-46 | a row is in the rows of a CPI column list exactly when it is a row of one of its columns |
| Aggregator.StatusTableMembership | ecl2df/wellconnstatus.py:30-46 | a row is in the table exactly when it is a row of some given column whose key passes the filter |
| Aggregator.AppendRows | ecl2df/wellconnstatus.py:45-46 | the inner loop appends exactly the tagged changes, in order, to the table so far |
| Aggregator.Df | ecl2df/wellconnstatus.py:30-48 | the filter-then-loop procedure returns the table, with one row per status change of each CPI column |

## Left out

- Reading the summary file with `EclSum`, `EclSumKeyWordVector`, `numpy_dates` and `numpy_vector` (lines 26-28, 42). These are file I/O in a foreign library. The dates and the named vectors are inputs instead.
- The iteration order of `column_names` (line 27). It is a Python set, so its order is unspecified. The model takes the keys as a given sequence and makes no claim about the order across keys. A set also cannot hold duplicate keys, but the model does not forbid them.
- Building the pandas DataFrame and appending rows to it (lines 35, 46). The table is a sequence of `Row` records. Its column names DATE, WELL, I, J, K and OP/SH appear only as the field order.
- `fill_parser`, `wellconnstatus_main`, the logger and `write_dframe_stdout_file` (lines 68-100). These are command-line parsing, logging and file output.
- NaN and other floating-point behaviour of numpy values. Values are exact reals.
- General regular-expression matching. Only the one pattern of line 33 is encoded, as a predicate on strings.
- Scanning the same series twice gives the same result. This holds trivially for a pure function, so no lemma states it.
