# Latency log parsing, smoothing and histogram summaries

A Dafny model of the pure logic inside `scripts/info.py`. That script reads a
latency log, whose lines of interest match the pattern below, and a JSON file
beside it whose `thread` object maps each thread id to a record with a
`histogram` (latency bucket to count) and `min`, `max`, `avg` and `cycles`. It then plots latency over time per CPU, along
with per-thread latency histograms. The model covers the three computations
that decide what gets plotted. Every drawing call is left out.

- **Log reader** (`LogParser`, `Lexer`). Each line is matched against
  `^\s*(\d+):\s+(\d+):\s+(\d+)\s+\d+\s*$`. A matching line becomes a sample
  (CPU, Tick, Latency), and the fourth number is dropped. Any other line is
  skipped without an error. A captured number too long for `int()` raises
  `ValueError` inside the list comprehension, so the read ends without a
  table; the model returns `Failure(TooManyDigits(line))` for the first such
  line. The regular expression is modelled by a scanner,
  `Split`, over a nine-piece `Layout` (whitespace, numeral, `:`, …), with
  `Render` as its inverse. `Split` is proved sound (everything it accepts
  has the pattern's shape) and complete (everything with that shape is
  accepted and cut uniquely). Those two facts together give the exact
  accept/reject boundary of the pattern.
- **Time-series smoothing** (`Rolling`, `Timeseries`). Rows are grouped by
  CPU, in file order. The window is `max(n // 100, 1)` for a group of `n`
  rows. A trailing rolling maximum or mean with `min_periods=1` is applied to
  the latency column, and any other method name leaves the series as it is.
- **Histogram summaries** (`Histogram`). The decoded `thread` object is
  flattened into (Thread, int(bucket), Count) rows, one per histogram entry,
  and grouped by thread. For each group, `total = sum(Count)` and
  `overflows = cycles - total`.

Shared pieces are `Wrappers` (`Option`, `Result`), `Seqs` (order-preserving
filters) and `Sums`.

Behaviour of the code that the model keeps:

- `\s` is Python's whitespace on ASCII: space, characters 9–13 and 28–31. `\d`
  is the ASCII digits. The `$` anchor may also match before a final newline,
  but that adds nothing, because a newline is whitespace.
- `int()` strips a narrower whitespace class than `\s`: space and characters
  9–13 only. Characters 28–31 are whitespace to the log pattern but make
  `int()` reject a bucket key (`SeparatorNotIntSpace`).
- Leading zeros are accepted in every numeral (`int("007") == 7`).
- `int()` refuses a numeral of more than 4300 digits, the interpreter's
  default limit on string-to-integer conversion. Leading zeros count towards
  the limit and the sign does not. The fourth number of a log line is never
  converted, so it may be of any length.
- A thread whose histogram is empty produces no rows. It therefore gets no
  group and no summary.
- If every histogram is empty, the table has no `Thread` column, and grouping
  it raises `KeyError`. The model returns `Failure(NoRows)` in that case.
  A bucket key that `int()` rejects raises `ValueError`, which the model
  returns as `Failure(BadBucket(..))`. The two plots treat an empty table
  differently: the time series of an empty log table is a chart with no lines
  (`EmptyTableEmptyChart`), while `plot_histogram` raises `KeyError`.
- The two loops of `plot_timeseries` compute the same series. `Chart` models
  both of them.

## Model

| member | source | states |
|---|---|---|
| `Lexer.Span` | scripts/info.py:13 | a greedy `\s*` / `\d+` run: the split reassembles the input, the run is all of the class, and the rest does not start with it |
| `Lexer.SpanSplitsAtFirstMiss` | scripts/info.py:13 | the greedy run is unique: a class run followed by a non-member is split exactly there, so the pattern never backtracks |
| `Lexer.DecimalValue` | scripts/info.py:17 | the value of a numeral is zero exactly when every digit is `0` |
| `Lexer.ShowDecimal` | scripts/info.py:17 | the canonical decimal numeral of `n` is a digit run with no leading zero whose decimal value is `n`, the value `int()` returns for it within the 4300-digit limit |
| `Lexer.ShowDecimalValue` | scripts/info.py:17 | a numeral without a leading zero is the canonical numeral of its value |
| `Lexer.LeadingZeroIgnored` | scripts/info.py:17 | a leading zero does not change the decimal value of a numeral, the value `int()` returns while the numeral, zeros included, has at most 4300 digits |
| `Lexer.ParseIntSound` | scripts/info.py:78 | whatever `int()` accepts is int-whitespace, an optional `+`/`-`, at most 4300 digits and int-whitespace, spelling the returned value |
| `Lexer.ParseIntNumeral` | scripts/info.py:78 | `int()` of whitespace, an optional `+`/`-`, a numeral and whitespace is the signed value when the numeral has at most 4300 digits, and raises otherwise |
| `Lexer.ParseIntExact` | scripts/info.py:78 | `int(s)` returns `v` if and only if `s` is the text of `v` in that form |
| `Lexer.ParseIntShowInt` | scripts/info.py:78 | `int(str(i))` is `i`, with or without whitespace around the numeral, unless `str(i)` has more than 4300 digits |
| `Lexer.ParseIntNeedsDigit` | scripts/info.py:78 | a bucket key without a digit is rejected by `int()` |
| `Lexer.SeparatorNotIntSpace` | scripts/info.py:78 | characters 28–31 are `\s` to the log pattern but not whitespace to `int()`, which rejects a key starting with one |
| `LogParser.Split` | scripts/info.py:13 | soundness of the matcher: an accepted line is the rendering of a well-formed layout (ws* N `:` ws+ N `:` ws+ N ws+ N ws*) |
| `LogParser.SplitRender` | scripts/info.py:13 | completeness: every well-formed layout's line is accepted and cut back into that same layout |
| `LogParser.RenderColons` | scripts/info.py:13 | every line the pattern accepts holds exactly two colons |
| `LogParser.CapturesConvert` | scripts/info.py:17 | the three captures of a matching line convert under `int()` to the sample's fields when each has at most 4300 digits, and one of them raises otherwise |
| `LogParser.NumeralConverts` | scripts/info.py:17 | `int()` of a bare numeral is its decimal value up to 4300 digits and raises beyond |
| `LogParser.ParseLine` | scripts/info.py:17-18 | an accepted line's sample is the first three numbers of a well-formed layout that spells the line; a failure names the line, which has the pattern's shape with a capture over the digit limit |
| `LogParser.ParseLineExact` | scripts/info.py:13-18 | a line is skipped if and only if it does not have the pattern's shape; one that has it gives its first three numbers, with the fourth discarded, or fails when a capture is over the digit limit |
| `LogParser.PrintedLineParses` | scripts/info.py:13-17 | the line `C: T: L X` for a sample parses back to that sample, whatever `X` is, unless a field exceeds 4300 digits, and then the read fails on that line |
| `LogParser.LinesWithoutColonsDropped` | scripts/info.py:18 | a blank line or a header without colons is skipped without an error |
| `LogParser.ParseLog` | scripts/info.py:16-21 | the read succeeds exactly when no line's conversion raises, and a failure is the error of the first line that raises; a table has at most one row per line, and it is empty exactly when no line matches |
| `LogParser.ParseLogMembers` | scripts/info.py:16-19 | a sample is in a table that was read exactly when some line parses to it |
| `LogParser.ParseLogAppend` | scripts/info.py:16-19 | reading concatenated inputs fails with the first input's error, else with the second's, and otherwise gives the concatenation of their tables, so rows keep line order |
| `LogParser.ParseLogSingle` | scripts/info.py:16-18 | one line contributes one row if it matches, none if it does not, and its error if a conversion raises |
| `Rolling.WindowSize` | scripts/info.py:31 | the window is at least 1, at most `n` when `n >= 1`, exactly 1 below 200 rows, and otherwise `n // 100` (`100w <= n < 100(w+1)`) |
| `Rolling.WindowStart` | scripts/info.py:33 | the trailing window ending at `i` has at most `w` positions and is cut short only at the start of the series |
| `Rolling.MaxOf` | scripts/info.py:33 | the maximum of a non-empty window is one of its elements and bounds all of them |
| `Rolling.WindowMax` | scripts/info.py:33 | the window maximum bounds every input in the trailing window and equals one of them |
| `Rolling.RollingMax` | scripts/info.py:33 | `rolling(w, min_periods=1).max()` has one value per input, and each value bounds its trailing window and is attained inside it |
| `Rolling.RollingMaxWindowOne` | scripts/info.py:31-33 | a window of 1 leaves the series unchanged |
| `Rolling.RollingMaxConstant` | scripts/info.py:33 | a constant series is its own rolling maximum |
| `Rolling.WindowMaxLocal` | scripts/info.py:33 | the window maximum depends only on the inputs inside the window |
| `Rolling.RollingMaxPrefix` | scripts/info.py:54 | the window looks only backwards: the rolling max of a prefix is the prefix of the rolling max |
| `Rolling.RollingMaxWiderWindow` | scripts/info.py:52-54 | a wider window never lowers a smoothed value |
| `Rolling.RollingMean` | scripts/info.py:35 | `rolling(w, min_periods=1).mean()` yields one value per input |
| `Rolling.RollingMeanConstant` | scripts/info.py:35 | a constant series is its own rolling mean |
| `Rolling.RollingMeanAtMostMax` | scripts/info.py:56 | the rolling mean never exceeds the rolling maximum of the same window |
| `Timeseries.Group` | scripts/info.py:30 | a CPU's group holds exactly the rows with that CPU number |
| `Timeseries.GroupAppend` | scripts/info.py:50 | grouping keeps file order inside a group |
| `Timeseries.GroupPartitions` | scripts/info.py:30 | grouping partitions the table: each occurrence of a row is in the group of its CPU and in no other group |
| `Timeseries.Smooth` | scripts/info.py:32-37 | one value per row in every mode; a `max` value is the rolling maximum of the latencies over a window of `WindowSize` rows (what that is, `Rolling.RollingMax` and `Timeseries.SeriesMax` state); any name other than `max`/`mean` gives the raw series |
| `Timeseries.SmallGroupUnsmoothed` | scripts/info.py:52-58 | a group of fewer than 200 rows is plotted unchanged in every mode |
| `Timeseries.ConstantUnsmoothed` | scripts/info.py:31-37 | every mode leaves a constant latency series unchanged |
| `Timeseries.Latencies` | scripts/info.py:33 | the column handed to `rolling` holds the group's latencies, one per row in group order |
| `Timeseries.CpuSeries` | scripts/info.py:50-60 | a CPU's line has one point per row of its group, at that row's tick, whose value is the smoothed group latency at the same position |
| `Timeseries.SeriesMax` | scripts/info.py:52-60 | for the `max` smoothing, value `i` of a group's series is the maximum latency of the rows in the trailing window ending at row `i`: it bounds all of them and equals one of them |
| `Timeseries.ChartMax` | scripts/info.py:50-60 | every point of every CPU's line in the `max` chart is the maximum latency of that CPU's rows in its trailing window |
| `Timeseries.Chart` | scripts/info.py:50-58 | the chart has one non-empty line for each CPU that occurs in the table, and no other lines |
| `Timeseries.ChartRaw` | scripts/info.py:57-60 | with the method `none`, a CPU's line is its rows' (Tick, Latency) pairs in file order |
| `Timeseries.EmptyTableEmptyChart` | scripts/info.py:30 | an empty table gives a chart without lines |
| `Histogram.FlattenThread` | scripts/info.py:77-78 | the flattening succeeds exactly when every bucket key converts, and then gives one `(thread, int(key), count)` row per entry, in order; otherwise it fails on a rejected key |
| `Histogram.Flatten` | scripts/info.py:76-78 | the whole table is built exactly when every key of every thread converts |
| `Histogram.RowsOfThread` | scripts/info.py:85 | a thread's group holds exactly the table rows with that thread id |
| `Histogram.FlattenGroup` | scripts/info.py:85-87 | with distinct thread ids, a thread's group is exactly the rows of its own histogram |
| `Histogram.FlattenGroupAbsent` | scripts/info.py:85-87 | an id that is not a thread key has no group |
| `Histogram.FlattenThreadsAreKeys` | scripts/info.py:97 | every grouped thread id is a key of the decoded file whose histogram is non-empty, so `data['thread'][thread_id]` succeeds |
| `Histogram.FlattenEmpty` | scripts/info.py:80-85 | the table is empty exactly when every histogram is empty |
| `Histogram.Lookup` | scripts/info.py:97-101 | with distinct keys, the record looked up under an id is the one stored there |
| `Histogram.Summarize` | scripts/info.py:97-101 | the result is `NoRows` exactly when every histogram is empty, and a bucket error exactly when a key does not convert; every summarised id is a thread with a non-empty histogram, and `total + overflows = cycles` |
| `Histogram.SummarizeKeys` | scripts/info.py:117-124 | a thread is summarised if and only if its histogram is non-empty |
| `Histogram.SummarizeTotals` | scripts/info.py:120-124 | a summarised thread's total is the sum of its own histogram's counts, its overflows are cycles minus that total, and min/avg/max are copied from its record |
| `Histogram.TwoBucketSummary` | scripts/info.py:100-101 | for one thread with two convertible buckets, the total is the sum of the two counts and overflows is cycles minus that sum |
| `Histogram.SummarizeExample` | scripts/info.py:100-101 | buckets `10:5` and `20:3` with 9 cycles give a total of 8 and 1 overflow |

## Left out

- Drawing: figures, palettes, titles, axis limits and ticks, legends, log
  scale, annotation text and `savefig`. This is output through plotting
  libraries, with no logic of the script's own.
- Reading the log file and decoding the JSON file. Input is an already-read
  sequence of lines and an already-decoded `thread` object. JSON objects are
  lists of key/value pairs in document order, with distinct keys. A record
  missing `histogram`, `min`, `max`, `avg` or `cycles` (a `KeyError` in the
  script) cannot be expressed. Neither can a value of another JSON type:
  histogram counts, `min`, `max` and `cycles` are integers and `avg` is a
  number, so a float or `null` count, say, is outside the model.
- The command-line argument check and creation of the `graphics` directory.
  This is process plumbing.
- Palette lookups `custom_colors[cpu-1]` and `custom_colors[int(thread_id) - 1]`,
  and the per-thread alpha `0.7 - i*0.15`. They are cosmetic, but they can
  raise, and the model leaves out these failures:
  - an `IndexError` for a CPU above 10 (scripts/info.py:39, 60);
  - an `IndexError` for a thread id outside -9..10 (index `int(thread_id) - 1`
    outside -10..9), and a `ValueError` for one that is not an integer
    (scripts/info.py:89);
  - a negative alpha from the sixth group on (`i = 5` gives `-0.05`), which
    `set_alpha` rejects with `ValueError` (scripts/info.py:117-118). Only a
    thread with a non-empty histogram has a group, so this needs six such
    threads.

  Because the main block calls `plot_histogram` before `plot_timeseries`
  (scripts/info.py:151-154), a file with six or more threads with non-empty
  histograms ends the run before any time series is drawn.
- The order of groups across CPUs and threads. `groupby` sorts the keys, so
  the model returns maps keyed by CPU or thread id.
- Floating point. `Rolling.RollingMean` divides exactly, using Dafny's `real`.
- Rolling.RollingMax: pandas computes rolling aggregates in float64. Its
  values equal the integers the model returns only while latencies are at
  most 2^53. From there up to the float64 range the conversion rounds, and
  the model does not state the rounded values. A latency of 2^1024 or more
  (309 digits or more, still within `int()`'s limit) does not fit an integer
  column, and casting that column to float64 raises `OverflowError`, so
  `plot_timeseries` fails where `Timeseries.Chart` returns a line.
- Unicode. Python's `\s`, `\d` and `int()` also accept non-ASCII whitespace
  and digits. The model uses ASCII only.
- Lexer.ParseInt: `int()` also accepts a single `_` between digits
  (`int("1_0") == 10`); the model rejects it. A digit limit changed with
  `sys.set_int_max_str_digits` is not modelled; the default 4300 is fixed.
- Histogram.Flatten: it inherits the `Lexer.ParseInt` gaps above, so a bucket
  key with an underscore or non-ASCII digits is reported as a `BadBucket` that
  the script would accept.
- Histogram.Summarize: the same gap, through `Histogram.Flatten`.
- `Histogram.FlattenThread`: the contract states that a failure names one of
  the keys `int()` rejects. It does not state that this is the first such key
  in document order, although the body reports that one, as the script does.
