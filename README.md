# Empty-bar accounting of an OHLCV bar series

This project models the gap accounting of the `live_trading_indicators` bar
series, as its bar-data test exercises it. A series holds five aligned
columns (open, high, low, close, volume) over a fixed timeframe. A bar is
*empty* when its close is the unknown-price sentinel, `UNKNOWN_PRICE`
(a NaN). `get_skips()` reads the current close column and returns a triple:

- the number of empty bars;
- that number as a fraction of all bars;
- the length of the longest unbroken run of empty bars.

The test copies a freshly fetched series and overwrites Python slices of
its close column with the sentinel, some of them with negative bounds. It
queries `get_skips()` after every write and compares each report with exact
values.

Modules:

- `Constants` (`constants.dfy`): the price cell `Price = Known(real) | Unknown`,
  where `Unknown` stands for the NaN sentinel and is matched by `IsUnknown`.
  Also the number of milliseconds in a day.
- `GapLedger` (`gap_ledger.dfy`): the report as pure functions.
  - `CountUnknown`, `TrailingRun` and `LongestRun` follow a left-to-right scan.
  - `SkipsOf` builds the triple from them.
  - Lemmas tie these functions to independent definitions: the set of empty
    positions, and windows made only of empty bars.
  - When the empty bars form separated spans, the count is the spans' total
    width and the run is the widest span.
- `Slices` (`slices.dfy`): `close[start:stop] = nan` as a function `Assign`.
  - Bounds are resolved and clamped as Python does for a step-1 slice: `-k`
    stands for `n - k`, an omitted bound is `None`.
  - Lemmas say what one write does to the count and to the run.
- `Series` (`series.dfy`): the class `BarSeries`.
  - Its columns are arrays.
  - `Copy` is a deep copy into fresh arrays.
  - `SetUnknown` overwrites a slice of `close` in place.
  - `GetSkips` is the one-pass scan: a total counter, a run counter that a
    known close resets, and the largest value the run counter reaches. Loop
    invariants tie it to `SkipsOf`.
- `CheckBarData` (`check_bar_data.dfy`): the test itself.
  - `BarCount` computes the number of bars in 40 days.
  - One lemma per copy gives the report after every write.
  - A method per copy runs the writes on the buffers.
  - `TestCheckBarData` returns every report in order, then the report of the
    fetched series itself. That last report shows that no write reached it.

Prices are exact reals, and the fraction is the exact rational `count / N`
(0 when `N = 0`). Every value the test expects is `k / N` for an integer
`k`, so exact rationals decide each comparison the same way float division
does.

## Model

| member | source | states |
|---|---|---|
| `GapLedger.SkipsOf` | tests/test_check_bar_data.py:14-15 | the triple's run is at most its count, which is at most N; the run is 0 exactly when the count is 0; the fraction is count / N exactly (0 for N = 0) and lies in [0, 1] |
| `GapLedger.CountIsCardinality` | tests/test_check_bar_data.py:17-19 | the reported count is the number of bar positions whose close is the sentinel |
| `GapLedger.TrailingRun` | tests/test_check_bar_data.py:19 | the run that ends at the last bar: those bars are all empty, and the bar just before them, if any, is not |
| `GapLedger.LongestRunCovers` | tests/test_check_bar_data.py:19 | every window made only of empty bars is at most as long as the reported run |
| `GapLedger.LongestRunAttained` | tests/test_check_bar_data.py:19 | some window made only of empty bars is exactly as long as the reported run |
| `GapLedger.NoRunIffNoUnknown` | tests/test_check_bar_data.py:14-15 | the reported run is 0 if and only if no bar is empty |
| `GapLedger.RunAtMostCount` | tests/test_check_bar_data.py:14-49 | the run never exceeds the count |
| `GapLedger.CountConcat` | tests/test_check_bar_data.py:21-23 | the count of two adjoining stretches of bars is the sum of their counts |
| `GapLedger.SeparatedCount` | tests/test_check_bar_data.py:21-23 | if the empty bars are exactly a set of spans that neither overlap nor touch, the count is the spans' total width |
| `GapLedger.SeparatedRun` | tests/test_check_bar_data.py:21-23 | under the same condition, the run is the width of the widest span: runs are compared, never added |
| `Slices.SliceRange` | tests/test_check_bar_data.py:17-47 | the normalised range of a step-1 slice lies in [0, N], and holds bar i exactly when i is at or after the resolved start and before the resolved stop (-k resolves to N - k; an omitted bound selects from the start or to the end) |
| `Slices.Assign` | tests/test_check_bar_data.py:17 | after `close[start:stop] = nan`, the length is unchanged; each selected bar holds the sentinel and every other bar keeps its close |
| `Slices.MarkedCount` | tests/test_check_bar_data.py:47-49 | a write raises the count by exactly the number of bars it newly sets to the sentinel; already-empty bars are not counted again |
| `Slices.MarkedIdempotent` | tests/test_check_bar_data.py:47 | writing the sentinel into the same range twice gives the same column as writing it once |
| `Slices.MarkedWiden` | tests/test_check_bar_data.py:43-47 | writing [lo, mid) and then [lo, hi), with mid <= hi, gives the same column as writing [lo, hi) alone |
| `Slices.MarkedNeverLowers` | tests/test_check_bar_data.py:34-36 | a write never lowers the count or the run, and afterwards the run is at least the length of the written range |
| `Series.BarSeries.constructor` | tests/test_check_bar_data.py:12 | the new series holds the given columns and timeframe, each column in its own fresh buffer |
| `Series.BarSeries.Copy` | tests/test_check_bar_data.py:12 | the copy has the same five columns, timeframe and start time as the original, each column in a fresh array |
| `Series.BarSeries.SetUnknown` | tests/test_check_bar_data.py:17 | the close column becomes `Assign(old close, start, stop)`; open, high, low and volume are unchanged |
| `Series.BarSeries.GetSkips` | tests/test_check_bar_data.py:14 | the scan reports `SkipsOf` of the close column as it is at the time of the call |
| `Series.MarkOnCopy` | tests/test_check_bar_data.py:25-28 | after a write on a copy, the original still reports on its own close column and the copy reports on the written column |
| `CheckBarData.BarCount` | tests/test_check_bar_data.py:9 | N is the number of whole bars that fit in 40 days of milliseconds (N * timeframe <= 40 days < (N + 1) * timeframe), and N >= 40 when a bar lasts at most a day |
| `CheckBarData.TestThresholdsAdmitAll` | tests/test_check_bar_data.py:11 | with `max_empty_bars_fraction=1` and `max_empty_bars_consecutive=1e12`, no series of the test's size exceeds either threshold |
| `CheckBarData.FirstCopyReports` | tests/test_check_bar_data.py:12-23 | on a series with no empty bar and N >= 40: it reports 0/N and run 0; after `[:6]`, 6/N and run 6; after `[-6:]` too, 12/N and run 6 |
| `CheckBarData.SecondCopyReports` | tests/test_check_bar_data.py:25-36 | from a series with no empty bar: `[-6:]` gives 6/N and run 6; adding `[20:32]` gives 18/N and run 12; adding `[:6]` gives 24/N and still run 12 |
| `CheckBarData.ThirdCopyReports` | tests/test_check_bar_data.py:38-49 | from a series with no empty bar: `[30:33]` gives 3/N and run 3; adding `[-6:-3]` gives 6/N and run 3; widening to `[-6:]` gives 9/N and run 6 |
| `CheckBarData.ThirdCopyNeedsFortyBars` | tests/test_check_bar_data.py:39-45 | with N = 39 the ranges `[30:33]` and `[-6:-3]` touch, so the run would be 6 instead of the expected 3: the test needs N >= 40 |
| `CheckBarData.FirstCopy` | tests/test_check_bar_data.py:12-23 | running the first copy's writes on the buffers gives the three reports above, in order |
| `CheckBarData.SecondCopy` | tests/test_check_bar_data.py:25-36 | running the second copy's writes on a fresh copy gives its three reports; none of the first copy's writes show |
| `CheckBarData.ThirdCopy` | tests/test_check_bar_data.py:38-49 | running the third copy's writes on a fresh copy gives its three reports |
| `CheckBarData.TestCheckBarData` | tests/test_check_bar_data.py:7-49 | the whole test yields the nine expected reports in order (count k, fraction k/N, run). Then the fetched series itself still reports (0, 0, 0) |

## Left out

- Building the `Indicators` object and fetching with `OHLCV(...)` (tests/test_check_bar_data.py:11-12). This is data-source, network and caching code that is not part of this model. The model starts from a given series (`Fetched`): every close is known, a bar lasts at most one day, and the series has exactly `BarCount(timeframe)` bars.
- The pytest fixtures `config_default`, `test_source`, `test_symbol` and `a_big_timeframe`. They are not part of this model. The timeframe is a positive number of milliseconds, at most one day.
- Parsing the dates `20220701` and `20220809`. The range is taken as the 40 days the bar-count formula of the test uses (July has 31 days, plus 9 days of August).
- The completeness gate. Its comparison code is not part of this model. `GateAdmits` only records what the two thresholds mean, and `TestThresholdsAdmitAll` shows that the test's settings reject nothing.
- Building a series from columns of unequal length (a shape error in the fetch layer). The constructor requires equal lengths.
- Float storage (`PRICE_TYPE`, `VOLUME_TYPE`, `VOLUME_TYPE_PRECISION`) and NaN bit patterns. Prices are exact reals, and the sentinel is a constructor of its own.
- `TIME_TYPE` datetime handling and loading `CONFIG_FILE_NAME`. These are library types and file I/O.
- The open, high, low and volume columns are stored and copied, but nothing here reads them. `SetUnknown` states that it leaves them unchanged.
