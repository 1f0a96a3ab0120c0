# AIP: a verified model of a dollar-cost-averaging backtest

`AIP.py` runs an automatic investment plan over a daily price series read
from a CSV file.

- From a start date it steps a nominal date by the contribution period:
  monthly, weekly or a number of days.
- Each nominal date resolves to the first trading day on or after it.
- On each trading day it invests 1000 times a rate multiplier. The
  multiplier comes from the day's close and its moving average.
- When the horizon of `time_length` years has passed, it computes the return
  over a date slice: total quantity times the last close, over total money,
  minus one.

This project models that program in Dafny and proves properties of the model.

| module | file | models |
|---|---|---|
| `Outcomes` | `outcomes.dfy` | explicit errors replacing Python's exceptions and error strings |
| `Calendar` | `calendar.dfy` | proleptic Gregorian dates; `timedelta` days, `relativedelta` months and years |
| `DateText` | `datetext.dfy` | `str(date)`, the `int(s[:4])`/`int(s[5:7])`/`int(s[8:10])` parse, Python string comparison |
| `Moves` | `moves.dfy` | `daymove` and `get_end_days` |
| `Series` | `series.dfy` | the price series, `next_trade_day`, `moving_avg` |
| `Rates` | `rates.dfy` | `adjust_rate` |
| `Backtest` | `backtest.dfy` | `fit` |

## How `fit` is modelled

- The money column is an `array` that the method `Backtest.Fit` resets to
  zero and writes in place inside a `while` loop.
- The loop is specified by the recursive function `Backtest.Run`.
  - The loop invariant says that running `Run` from the current state gives
    the same result as running it from the initial state.
  - So `Fit` produces exactly `Backtest.FitSpec`.
- The lemmas about `Run` and `Simulate` state what the loop writes and where
  it stops, and they are proved by induction over the loop.

The model keeps three behaviours of the code as written:

1. **Swapped arguments.** `fit` calls `adjust_rate(ma_price, close, …)`, so
   the moving average plays the role of `price` and the close plays the role
   of `ma_price` (AIP.py:119-121).
   - Under 'linear' the multiplier is `2 - ma/close`, capped.
   - It therefore rises with the close.
2. **Strict end test.** The loop test compares a timestamp string
   `'YYYY-MM-DD 00:00:00'` with a date string `'YYYY-MM-DD'` (AIP.py:117).
   - `DateText.EndTestIsStrict` proves that this test holds exactly when the
     trading date is strictly before the end date.
   - So a trading day that falls on the end date is not invested.
3. **Nominal stepping.** The loop steps the nominal date, not the trading
   date; each step clamps the day from the previous nominal date
   (AIP.py:122).
   - `Backtest.SimulateNominal` proves that the `k`-th row written is the
     trading day of the `k`-th nominal date (`Moves.Nominal`).
   - Monthly steps therefore drift: Jan 31 → Feb 28 → Mar 28
     (`Moves.MonthlyDrift`), and `Backtest.SimulateMonthly` carries that
     drift to the rows invested.

The `rate` line `min(max(min_rate, 1 + percent), min(1 + percent, max_rate))`
always picks its second argument. So the rate is `1 + percent` capped at
`max_rate`, and `min_rate` has no effect (`Rates.MinRateIgnored`,
`Rates.NotAClamp`). The class docstring calls `min_rate` the minimum
percentage invested; the model follows the code.

The moving-average window includes both of its ends. A pandas label slice
`loc[first_day:last_day]` includes its end label, so the window runs from
`last - period` days to `last` inclusive. That is `period + 1` calendar days,
not a half-open range of `period` days.

Python's `date` covers the years 1..9999, and the model checks that range:
- a step, a horizon end or a moving-average start outside it is a
  `DateOutOfRange` error;
- the termination measure of the loop is the room left in that range.

The series index and the bounds of the pandas label slices are pandas
Timestamps, whose range is narrower: roughly the years 1677 to 2262. The
model does not check that range. A date that `datetime.date` accepts but a
Timestamp does not would make pandas fail where the model goes on.

## Model

| member | source | states |
|---|---|---|
| `Calendar.DaysInMonth` | AIP.py:87 | a month has 28..31 days; 29 exactly for a leap February, 28 exactly for a common February |
| `Calendar.AddDays` | AIP.py:89-91 | `d + timedelta(days=n)` is a real date whose day number is the day number of `d` plus `n` |
| `Calendar.AddMonths` | AIP.py:87 | `d + relativedelta(months=n)` lands `n` months later, counted across years; the day is kept, or clamped to the end of the target month |
| `Calendar.AddYears` | AIP.py:100 | `d + relativedelta(years=n)` keeps the month; it keeps the day unless the date does not exist, which happens only for Feb 29, which becomes Feb 28 |
| `Calendar.OrdinalMonotone` | AIP.py:89-91 | for valid dates, chronological order is day-number order, and equal dates are equal day numbers |
| `Calendar.AddDaysDirection` | AIP.py:91 | adding `n` days moves later exactly when `n > 0`, earlier exactly when `n < 0`, and nowhere exactly when `n = 0` |
| `Calendar.AddDaysAdd` | AIP.py:89-91 | adding `m` days and then `n` days is adding `m + n` days |
| `DateText.Slice` | AIP.py:39 | Python's `s[i:j]` is at most `j - i` characters long |
| `DateText.ParseNat` | AIP.py:39 | the model's digit-only `int(t)` succeeds exactly on a non-empty run of ASCII decimal digits and gives their value |
| `DateText.Parse` | AIP.py:85 | the three-slice parse yields a real date in the years 1..9999, or fails with InvalidDate |
| `DateText.DateString` | AIP.py:41 | `str(date)` is ten characters long; `DateText.ParseDateString` reads it back |
| `DateText.TimestampString` | AIP.py:77 | `str()` of the pandas Timestamp that `next_trade_day` returns: the date string followed by ` 00:00:00`, nineteen characters; `DateText.ParseDateString` reads it back |
| `DateText.DateStringFields` | AIP.py:39-41 | in `str(d)`, the slices `[:4]`, `[5:7]` and `[8:10]` are the zero-padded year, month and day |
| `DateText.ParseFields` | AIP.py:39-41 | any string whose slices `[:4]`, `[5:7]` and `[8:10]` hold the zero-padded fields of a valid date in range parses to that date, whatever else it holds |
| `DateText.ParseDateString` | AIP.py:39-41 | parsing `str(d)`, or the midnight timestamp string of `d`, gives back `d` |
| `DateText.LexLess` | AIP.py:117 | Python's `<` on strings, character by character, a proper prefix being smaller; its order on date strings is stated by `DateText.DateStringOrder` |
| `DateText.LexLessEq` | AIP.py:117 | Python's `<=` on strings: `<` or equal; the loop test through it is stated by `DateText.EndTestIsStrict` |
| `DateText.DigitsOrder` | AIP.py:117 | zero-padded decimal strings of equal width compare as the numbers they denote |
| `DateText.DateStringOrder` | AIP.py:117 | `str(a) < str(b)` on strings exactly when `a` is before `b`, and the strings are equal exactly when the dates are |
| `DateText.EndTestIsStrict` | AIP.py:117 | `'YYYY-MM-DD 00:00:00' <= 'YYYY-MM-DD'` holds exactly when the trading date is strictly before the end date |
| `Moves.Shift` | AIP.py:86-93 | 'monthly' moves to the next month with the day clamped; 'weekly' adds 7 days; an int adds that many days; forward moves go later and backward moves earlier; any other move is InvalidMove |
| `Moves.Step` | AIP.py:85-93 | `daymove` on a date succeeds exactly for a recognised move whose target lies in the years 1..9999; it then gives the shifted date, and otherwise the error that applies |
| `Moves.DayMove` | AIP.py:80-93 | `daymove(start, move)` answers with a ten-character date string; on the program's own strings it is `Step` (`Moves.DayMoveOfString`) |
| `Moves.DayMoveOfString` | AIP.py:80-93 | on a date string or a timestamp string, `daymove` is `str` of `Step`, or `Step`'s error |
| `Moves.EndDate` | AIP.py:100 | the horizon end exists exactly when the shifted year is in 1..9999; it keeps the month, and keeps the day except that Feb 29 becomes Feb 28 |
| `Moves.GetEndDays` | AIP.py:95-100 | `get_end_days(start, years)` answers with a ten-character date string; on a date string it is `EndDate` (`Moves.GetEndDaysOfString`) |
| `Moves.GetEndDaysOfString` | AIP.py:95-100 | on a date string, `get_end_days` is `str` of `EndDate`, or DateOutOfRange |
| `Moves.MonthlyStepMonth` | AIP.py:87 | one monthly step goes to the next month, rolling December over to January; the day never grows |
| `Moves.Nominal` | AIP.py:116-122 | the `k`-th nominal date: the start after `k` calls of `daymove`, each on the previous result; it is a real date, later than the start for a forward move and earlier for a backward one, `7k` days on for 'weekly' and `kn` days on for `n` days; a failure is DateOutOfRange, or InvalidMove for a move `daymove` does not know |
| `Moves.StepMonthly` | AIP.py:86-87 | a monthly `daymove` is one `relativedelta(months=1)`, or DateOutOfRange past the year 9999 |
| `Moves.NominalMonthly` | AIP.py:122 | under 'monthly', while stepping succeeds the `k`-th nominal date is `MonthlySteps(start, k)`, and a step after a successful one succeeds exactly when its date is in range |
| `Moves.MonthlyDayNeverGrows` | AIP.py:122 | repeated monthly stepping of the nominal date never raises its day of month |
| `Moves.MonthlyAfterFebruary` | AIP.py:122 | once the nominal date has passed through February, its day stays at most 29 |
| `Moves.MonthlyDrift` | AIP.py:122 | stepping Jan 31 twice gives Mar 28, while adding two months at once gives Mar 31 |
| `Moves.EndDateOfLeapDay` | AIP.py:100 | Feb 29, 2020 plus one year is Feb 28, 2021; plus four years is Feb 29, 2024 |
| `Series.NextTradeDay` | AIP.py:75-78 | `next_trade_day(d)` is the first row dated on or after `d`; when every row is earlier it is DateNotFound |
| `Series.NextTradeDayOfTradeDate` | AIP.py:77 | a trading date resolves to its own row |
| `Series.NextTradeDayIsLeast` | AIP.py:77 | if some row is on or after `d`, the lookup succeeds at that row or an earlier one |
| `Series.NextTradeDayMonotone` | AIP.py:122-123 | a later nominal date never resolves to an earlier row |
| `Series.NextTradeDayAfterEnd` | AIP.py:77 | a date after the last row has no trading day |
| `Series.UpperIndex` | AIP.py:125 | the end of the label slice `loc[:d]`: every row before it is dated on or before `d`, and the row at it is after `d` |
| `Series.InWindow` | AIP.py:42 | `loc[lo:hi]` holds exactly the rows dated from `lo` to `hi`, both ends included, and on an increasing series it is increasing, so each such row appears once |
| `Series.Window` | AIP.py:40-42 | the moving-average window holds exactly the rows dated from `last - period` days to `last`, once each and in order |
| `Series.IncreasingUnique` | AIP.py:42 | two increasing sequences with the same rows are equal |
| `Series.WindowUnique` | AIP.py:40-43 | any increasing sequence of exactly the rows in the window's range is the window, so the mean is fixed by the range |
| `Series.Mean` | AIP.py:43 | the mean times the count is the sum; an empty window has no mean (UndefinedMean) |
| `Series.MovingAvg` | AIP.py:33-43 | the moving average exists exactly when the window start is in range and the window is non-empty; it is the mean of the closes from `last - period` days to `last` |
| `Series.SumClosesBounds` | AIP.py:43 | closes between two bounds sum to between the count times each bound |
| `Series.MeanBounds` | AIP.py:43 | a mean lies between any bounds of the averaged closes |
| `Series.MovingAvgBounds` | AIP.py:33-43 | the moving average lies between the lowest and the highest close in its window |
| `Series.MovingAvgConstant` | AIP.py:33-43 | a window whose closes all equal `c` averages to `c` |
| `Series.MovingAvgAtTradeDate` | AIP.py:39-42 | at a trading date with a non-negative period, the window holds that row, so the average exists |
| `Rates.BaseRate` | AIP.py:52 | the `rate` expression equals `1 + percent` capped at `max_rate` |
| `Rates.Percent` | AIP.py:50 | `percent` is the fraction of `ma_price` by which the price lies below it: `percent * ma_price == ma_price - price`, and it is 0 exactly at the average |
| `Rates.AliTier` | AIP.py:61-71 | the 'ali' multiplier is one of 0.6, 0.7, 0.8, 0.9, 1; it is 1 exactly when `ali_percent <= 0`, and 0.6 exactly when `ali_percent > 1` |
| `Rates.AdjustRate` | AIP.py:45-73 | the result for each selector: 'linear' gives the capped rate; 'null' gives 1; 'log' gives `max(ln(rate) + 1, 0)`, or MathDomain when `rate <= 0`; 'exp' gives `exp(rate - 1)`; 'ali' gives the tier of `(price - ma)/ma`; an unknown selector is InvalidFunction; a zero `ma_price` is DivisionByZero |
| `Rates.AliTierMonotone` | AIP.py:61-71 | a higher `ali_percent` never gives a higher 'ali' multiplier |
| `Rates.AliTierBoundaries` | AIP.py:62-71 | the boundary values 1 and 0.5 give 0.7, 0.15 gives 0.8, and 0 gives 1 |
| `Rates.NullIsOne` | AIP.py:55-56 | 'null' gives 1 whatever the prices and bounds |
| `Rates.MinRateIgnored` | AIP.py:52 | `min_rate` changes no result of any selector |
| `Rates.NotAClamp` | AIP.py:52 | a witness: price 2, average 1 and `min_rate` 0.5 give a 'linear' rate of 0, below `min_rate` |
| `Rates.LinearMonotoneInMaxRate` | AIP.py:52-54 | a larger `max_rate` never lowers the 'linear' multiplier |
| `Rates.LinearAtAverage` | AIP.py:50-54 | at the average itself 'linear' gives `min(1, max_rate)` |
| `Rates.LogNonNegative` | AIP.py:57-58 | a 'log' multiplier, when there is one, is never negative |
| `Backtest.Contribution` | AIP.py:118-121 | the money written at a row fails with the moving average's error when it has none; otherwise it is `1000 *` `adjust_rate` called with the moving average as `price` and the close as `ma_price`, or that call's error |
| `Backtest.Prepare` | AIP.py:114-116 | the run's plan holds the parsed start date, `get_end_days(start)` and `next_trade_day(start)`; it exists exactly when all three succeed, and otherwise the error is that of the first one to fail (InvalidDate, DateOutOfRange, DateNotFound) |
| `Backtest.Run` | AIP.py:117-123 | the loop ends on a row of the series, with one table entry per row |
| `Backtest.Simulate` | AIP.py:102-123 | a failed preparation is the run's error; otherwise the run succeeds exactly when the loop from the prepared plan over a zeroed table does, and its trace is that loop's result, ending on a row of the series with one table entry per row |
| `Backtest.Settle` | AIP.py:125-128 | the return exists exactly when the slice is non-empty and its money sum is non-zero; otherwise EmptySlice or DivisionByZero |
| `Backtest.Quantity` | AIP.py:126-127 | the quantity bought, money over close summed over the rows, is non-negative when no amount is negative |
| `Backtest.FitSpec` | AIP.py:102-129 | `fit()`: a failed run is its error, a failed final `daymove` is its error; otherwise a number comes out exactly when the settlement slice is non-empty with a non-zero money sum, else EmptySlice or DivisionByZero |
| `Backtest.Fit` | AIP.py:102-129 | the in-place loop over the money array computes exactly the specified run and return |
| `Backtest.MeasureDecreases` | AIP.py:117-123 | each step uses up part of the bounded date range, so the loop terminates for every move other than 0 days |
| `Backtest.ContributionLinear` | AIP.py:119-121 | with the swapped call, 'linear' invests `1000 * min(2 - ma/close, max_rate)` |
| `Backtest.ContributionAli` | AIP.py:119-121 | with the swapped call, the 'ali' tier is driven by `(ma - close)/close` |
| `Backtest.ContributionNull` | AIP.py:119-121 | under 'null' every contribution with a moving average is exactly 1000 |
| `Backtest.ContributionUnknownSelector` | AIP.py:119-121 | an unknown selector fails the contribution with InvalidFunction once the moving average exists |
| `Backtest.ContributionOkHasMean` | AIP.py:118 | a contribution exists only where the moving average does |
| `Backtest.RunExtends` | AIP.py:117-123 | the loop only appends to the rows written so far |
| `Backtest.RunLast` | AIP.py:117 | the row that ends the loop is dated on or after the end date |
| `Backtest.RunWritten` | AIP.py:117-121 | every row the loop writes is dated before the end date and has money; afterwards it holds that money, even when it is written more than once |
| `Backtest.RunUntouched` | AIP.py:105-121 | a row that was never written, before or during the loop, keeps its earlier value |
| `Backtest.RunBounded` | AIP.py:122-123 | for a forward period, every row written lies between the starting row and the row that ends the loop |
| `Backtest.RunOrdered` | AIP.py:122-123 | for a forward period, the rows written come in non-decreasing order |
| `Backtest.RunChain` | AIP.py:116-123 | the loop extends a chain of nominal dates by one `daymove` step of the previous nominal date per turn; each resolves to the row written on its turn, and the last to the row that ends the loop |
| `Backtest.ChainIsNominal` | AIP.py:116-122 | the `j`-th date of such a chain is the `j`-th nominal date from its first |
| `Backtest.SimulateTable` | AIP.py:105-123 | after the loop, each written row is before the end date and holds its contribution; every other row holds 0; the last row is on or after the end date |
| `Backtest.SimulateOrdered` | AIP.py:115-123 | for a forward period, the written rows are non-decreasing and lie between the first trading row and the last row |
| `Backtest.SimulateNominal` | AIP.py:115-123 | the `k`-th row a run writes is `next_trade_day` of the `k`-th nominal date from the start, and the row that ends the loop is that of the next nominal date |
| `Backtest.SimulateMonthly` | AIP.py:115-123 | under 'monthly', the `k`-th row written is `next_trade_day` of the start date stepped `k` times by one month, so the drift of `Moves.MonthlyDrift` reaches the rows invested |
| `Backtest.SimulateNull` | AIP.py:119-121 | under 'null' each table entry is 1000 if the loop wrote it, else 0 |
| `Backtest.SettlementCoversRun` | AIP.py:124-125 | for a forward period, the settlement slice contains the last row and every written row |
| `Backtest.SumOfSlice` | AIP.py:128 | a slice sums to the whole table when every entry outside it is 0 |
| `Backtest.SettlementCountsAllMoney` | AIP.py:124-128 | for a forward period, the money the return divides by is all the money the run put in |
| `Backtest.QuantityAtConstantPrice` | AIP.py:126-127 | at one price `c` everywhere, the quantity bought is the money divided by `c` |
| `Backtest.SumNonNegative` | AIP.py:128 | a sum of non-negative amounts is non-negative |
| `Backtest.SettleConstantPrice` | AIP.py:126-128 | flat prices across the slice give a return of exactly 0 |
| `Backtest.SettleAtLeastMinusOne` | AIP.py:126-128 | with no negative amount in the slice, the return is at least -1 |
| `Backtest.FitConstantPrice` | AIP.py:102-129 | on a series whose price never changes, `fit()` returns 0 whenever it returns a number |

## Left out

- Reading the CSV file with pandas (AIP.py:24) is left out: the series is a parameter, a sequence of (date, close) rows.
- The model assumes the series is well formed: valid dates, strictly increasing, and positive closes.
- The `money` and `quantity` columns, which `fit` adds to the object's DataFrame and leaves there, are not modelled. The model's money table exists only for one run.
- Floating point is not modelled. Amounts are exact reals, so there is no rounding, no `inf` and no NaN.
  - Where pandas or numpy would give NaN, the model returns an error: UndefinedMean for an empty moving-average window, for instance a negative `ma_period`; DivisionByZero for a zero money total, where numpy gives NaN, or ±inf when negative 'linear' contributions cancel to a zero total while the quantity is not zero.
  - Python does not always fail there. With a NaN moving average, `percent` is NaN. The built-ins `min` and `max` return their first argument when comparing it with NaN is false. `min_rate` comes first in `max(min_rate, 1 + percent)` and so also in the outer `min` (AIP.py:52), so `rate` is `min_rate`. So the rate of 'linear', 'log' and 'exp' is computed from `min_rate`, 'null' invests 1000, 'ali' falls through every tier to 1 and invests 1000, and `fit` can still return a number. For a negative `ma_period` the model returns UndefinedMean instead.
- `math.log` and `math.exp` are parameters of type `Rates.Transcendentals`. Nothing about them is assumed or proved.
- Rates.AdjustRate: for an unknown selector it returns InvalidFunction. Python returns an error string and `fit` stores `1000 *` that string in the money column. The first operation that fails on it is the division `data_used['money'] / data_used['Adj Close']` (AIP.py:126). The model fails at the first contribution instead.
- DateText.ParseNat: accepts ASCII digits only. Python's `int()` also accepts signs, surrounding whitespace, underscores and non-ASCII Unicode decimal digits (fullwidth "２０２０", for instance). The program's own date strings contain nothing else, but `start_date` is user input that `get_end_days` (AIP.py:99) and the first `daymove` (AIP.py:85) read through the same slices: Python reads "2020- 1- 5" as 2020-01-05, where the model returns InvalidDate.
- Real pandas parses the start date in `next_trade_day(start_date)` and in the settlement slice with its own parser. The model parses it once, with the slice parse `get_end_days` uses.
- A move of 0 days never advances the nominal date, so every turn of the loop repeats the first: once Python enters the loop it never leaves it normally. It leaves only by an exception raised on the first turn: `math.log` of a rate of at most 0 for 'log' (AIP.py:58), for instance when `max_rate <= 0`; an `OverflowError` from `last_day_dt - timedelta(days=period)` when the window start falls before year 1 (AIP.py:40); or an overflow of `math.exp` for 'exp' (AIP.py:60). `Backtest.Run`, `Backtest.Fit` and their lemmas require `period != Days(0)`. That requirement also excludes these runs. Without it the model would give MathDomain for the first, DateOutOfRange for the second, and a number for the third, since `math.exp` is a parameter there.
  - That requirement also excludes the runs that never enter the loop, where the first trading date is already on or after the end date (for instance `time_length = 0`). Python settles those over a zero money column and returns NaN. The model does not cover them.
- A move of any other Python type (float, bool, None) is `Moves.OtherValue`; its string form is not modelled.
- Backtest.Run: its own contract states only bounds. What the loop computes is stated by the lemmas `RunExtends`, `RunLast`, `RunWritten`, `RunUntouched`, `RunBounded`, `RunOrdered` and `RunChain`, and, for a whole run, `SimulateTable`, `SimulateOrdered` and `SimulateNominal`.
