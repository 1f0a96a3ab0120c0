/**
  `daymove` and `get_end_days` of AIP.py: advancing a date by one
  contribution period, and by the whole horizon in years. Each has a
  date-level form (`Step`, `EndDate`) used by the simulation and the string
  form the source actually has (`DayMove`, `GetEndDays`), which parses with
  the slices and answers with `str(date)`.
*/
module Moves {
  import opened Calendar
  import opened DateText
  import opened Outcomes

  /** The `move` argument: a string selector, an `int` number of days, or a value of any other Python type. */
  datatype Move = Word(name: string) | Days(n: int) | OtherValue

  /** Periods that move the date forward. */
  predicate Forward(move: Move) {
    move == Word("monthly") || move == Word("weekly") || (move.Days? && move.n > 0)
  }

  /** Periods that move the date backward. */
  predicate Backward(move: Move) {
    move.Days? && move.n < 0
  }

  /** The moves `daymove` recognises. */
  predicate Known(move: Move) {
    move == Word("monthly") || move == Word("weekly") || move.Days?
  }

  /** `daymove` on a date: the calendar shift of the move, failing outside the years 1..9999. */
  function Step(d: Date, move: Move): (r: Result<Date>)
    requires Valid(d)
    ensures r.Ok? <==> Known(move) && InRange(Shift(d, move).value)
    ensures r.Ok? ==> r.value == Shift(d, move).value && Valid(r.value) && InRange(r.value)
    ensures r.Err? ==> r.error == (if Known(move) then DateOutOfRange else InvalidMove)
  {
    var next :- Shift(d, move);
    if InRange(next) then Ok(next) else Err(DateOutOfRange)
  }

  /**
    The calendar shift of `daymove` before the year-range check: one month
    later with the day clamped to the month's end, 7 days later, n days
    later; any other move is an error.
  */
  function Shift(d: Date, move: Move): (r: Result<Date>)
    requires Valid(d)
    ensures r.Ok? <==> Known(move)
    ensures r.Ok? ==> Valid(r.value)
    ensures r.Err? ==> r.error == InvalidMove
    ensures r.Ok? && move == Word("weekly") ==> Ordinal(r.value) == Ordinal(d) + 7
    ensures r.Ok? && move.Days? ==> Ordinal(r.value) == Ordinal(d) + move.n
    ensures r.Ok? && move == Word("monthly") ==>
      r.value.year * 12 + r.value.month == d.year * 12 + d.month + 1
      && r.value.day == (if d.day <= DaysInMonth(r.value.year, r.value.month) then d.day
                         else DaysInMonth(r.value.year, r.value.month))
    ensures r.Ok? && Forward(move) ==> Before(d, r.value)
    ensures r.Ok? && Backward(move) ==> Before(r.value, d)
    ensures r.Ok? && move == Days(0) ==> r.value == d
  {
    if move == Word("monthly") then Ok(AddMonths(d, 1))
    else if move == Word("weekly") then
      AddDaysDirection(d, 7);
      Ok(AddDays(d, 7))
    else if move.Days? then
      AddDaysDirection(d, move.n);
      Ok(AddDays(d, move.n))
    else Err(InvalidMove)
  }

  /** `daymove(start, move)` on strings. */
  function DayMove(start: string, move: Move): (r: Result<string>)
    ensures r.Ok? ==> |r.value| == 10
  {
    var d :- Parse(start);
    var next :- Step(d, move);
    Ok(DateString(next))
  }

  /** `dt + relativedelta(years=n)` with Python's year-range check. */
  function EndDate(d: Date, years: int): (r: Result<Date>)
    requires Valid(d)
    ensures r.Ok? <==> MIN_YEAR <= d.year + years <= MAX_YEAR
    ensures r.Ok? ==> Valid(r.value) && r.value.year == d.year + years && r.value.month == d.month
    ensures r.Ok? ==> r.value.day == (if Valid(Date(d.year + years, d.month, d.day)) then d.day else 28)
    ensures r.Err? ==> r.error == DateOutOfRange
  {
    var e := AddYears(d, years);
    if InRange(e) then Ok(e) else Err(DateOutOfRange)
  }

  /** `get_end_days(start, move)` on strings. */
  function GetEndDays(start: string, years: int): (r: Result<string>)
    ensures r.Ok? ==> |r.value| == 10
  {
    var d :- Parse(start);
    var e :- EndDate(d, years);
    Ok(DateString(e))
  }

  /** What `fit` does when it steps the nominal date `k` times monthly (range check aside). */
  function MonthlySteps(d: Date, k: nat): (r: Date)
    requires Valid(d)
    ensures Valid(r)
  {
    if k == 0 then d else AddMonths(MonthlySteps(d, k - 1), 1)
  }

  /**
    The nominal date `fit` holds after `k` turns of its loop: `daymove`
    applied `k` times to the start date, each time to the previous nominal
    date, failing as soon as one step fails.
  */
  function Nominal(d: Date, move: Move, k: nat): (r: Result<Date>)
    requires Valid(d)
    ensures r.Ok? ==> Valid(r.value)
    ensures r.Ok? && Forward(move) && k > 0 ==> Before(d, r.value)
    ensures r.Ok? && Backward(move) && k > 0 ==> Before(r.value, d)
    ensures r.Ok? && move == Word("weekly") ==> Ordinal(r.value) == Ordinal(d) + 7 * k
    ensures r.Ok? && move.Days? ==> Ordinal(r.value) == Ordinal(d) + k * move.n
    ensures r.Err? ==> r.error == (if Known(move) then DateOutOfRange else InvalidMove)
  {
    if k == 0 then Ok(d)
    else
      var prev :- Nominal(d, move, k - 1);
      Step(prev, move)
  }

  // ---------------------------------------------------------------- lemmas

  /**
    Under 'monthly' the nominal dates are the repeated one-month steps: while
    the stepping succeeds, the `k`-th nominal date is `MonthlySteps(d, k)`,
    and it fails exactly at the first step that leaves the years 1..9999.
  */
  lemma {:induction false} NominalMonthly(d: Date, k: nat)
    requires Valid(d)
    ensures Nominal(d, Word("monthly"), k).Ok? ==> Nominal(d, Word("monthly"), k) == Ok(MonthlySteps(d, k))
    ensures k > 0 && Nominal(d, Word("monthly"), k - 1).Ok? ==>
      (Nominal(d, Word("monthly"), k).Ok? <==> InRange(MonthlySteps(d, k)))
  {
    if k > 0 {
      NominalMonthly(d, k - 1);
      StepMonthly(MonthlySteps(d, k - 1));
    }
  }

  /** A monthly `daymove` is one `AddMonths`, or DateOutOfRange past the year 9999. */
  lemma StepMonthly(x: Date)
    requires Valid(x)
    ensures Step(x, Word("monthly")) == if InRange(AddMonths(x, 1)) then Ok(AddMonths(x, 1)) else Err(DateOutOfRange)
  {
  }

  /** On the strings the program itself produces, `daymove` is `Step` followed by `str`. */
  lemma DayMoveOfString(d: Date, move: Move)
    requires Valid(d) && InRange(d)
    ensures DayMove(DateString(d), move) == (if Step(d, move).Ok? then Ok(DateString(Step(d, move).value)) else Err(Step(d, move).error))
    ensures DayMove(TimestampString(d), move) == DayMove(DateString(d), move)
  {
    ParseDateString(d);
  }

  /** Likewise `get_end_days` is `EndDate` followed by `str`. */
  lemma GetEndDaysOfString(d: Date, years: int)
    requires Valid(d) && InRange(d)
    ensures GetEndDays(DateString(d), years) == (if EndDate(d, years).Ok? then Ok(DateString(EndDate(d, years).value)) else Err(DateOutOfRange))
  {
    ParseDateString(d);
  }

  /** One monthly step: the next month, rolling over to January of the next year after December. */
  lemma MonthlyStepMonth(d: Date)
    requires Valid(d)
    ensures d.month < 12 ==> AddMonths(d, 1).year == d.year && AddMonths(d, 1).month == d.month + 1
    ensures d.month == 12 ==> AddMonths(d, 1).year == d.year + 1 && AddMonths(d, 1).month == 1
    ensures AddMonths(d, 1).day <= d.day
  {
  }

  /** Repeated monthly steps never raise the day of the month. */
  lemma {:induction false} MonthlyDayNeverGrows(d: Date, j: nat, k: nat)
    requires Valid(d) && j <= k
    ensures MonthlySteps(d, k).day <= MonthlySteps(d, j).day
    decreases k - j
  {
    if j < k {
      MonthlyDayNeverGrows(d, j, k - 1);
    }
  }

  /** Once the nominal date has passed through February, its day stays at most 29 for good. */
  lemma MonthlyAfterFebruary(d: Date, j: nat, k: nat)
    requires Valid(d) && j <= k && MonthlySteps(d, j).month == 2
    ensures MonthlySteps(d, k).day <= 29
  {
    MonthlyDayNeverGrows(d, j, k);
  }

  /** Stepping from Jan 31 twice gives Mar 28, not the Mar 31 that adding two months at once gives. */
  lemma MonthlyDrift()
    ensures MonthlySteps(Date(2021, 1, 31), 1) == Date(2021, 2, 28)
    ensures MonthlySteps(Date(2021, 1, 31), 2) == Date(2021, 3, 28)
    ensures AddMonths(Date(2021, 1, 31), 2) == Date(2021, 3, 31)
  {
  }

  /** The horizon end of a leap day: Feb 29 plus one year is Feb 28. */
  lemma EndDateOfLeapDay()
    ensures EndDate(Date(2020, 2, 29), 1) == Ok(Date(2021, 2, 28))
    ensures EndDate(Date(2020, 2, 29), 4) == Ok(Date(2024, 2, 29))
  {
  }
}
