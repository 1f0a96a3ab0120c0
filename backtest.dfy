/**
  `fit` of AIP.py: the dollar-cost-averaging run. From the start date it
  steps a nominal date by the contribution period, resolves each nominal
  date to a trading day, and writes the money invested there (1000 times
  the rate multiplier) into a table with one entry per series row; after
  the horizon it sums money and quantity over a date slice and computes the
  return.

  `Run` is the loop as a recursive function and `FitSpec` the whole run; the
  method `Fit` performs the loop with a mutable money array and is proved
  to produce exactly `FitSpec`. The lemmas below state what a run does.
*/
module Backtest {
  import opened Calendar
  import opened DateText
  import opened Outcomes
  import opened Moves
  import opened Series
  import opened Rates

  /** The nominal amount of one contribution (`money = 1000`). */
  const UNIT: real := 1000.0

  /** The fields of an `AIP` object other than its data file. */
  datatype Config = Config(
    start: string,     // start_date, 'YYYY-MM-DD'
    period: Move,      // inv_period
    years: int,        // time_length
    maPeriod: int,     // ma_period, in days
    selector: string,  // function
    minRate: real,
    maxRate: real)

  /** Where a run starts and stops: the parsed start date, the horizon end and the first trading row. */
  datatype Plan = Plan(start: Date, end: Date, first: nat)

  /** The state a run leaves: the money table, the rows written in order, and the row that ended the loop. */
  datatype Trace = Trace(table: seq<real>, visits: seq<nat>, last: nat)

  datatype Outcome = Outcome(plan: Plan, trace: Trace)

  function Zeros(n: nat): (z: seq<real>)
    ensures |z| == n && forall i :: 0 <= i < n ==> z[i] == 0.0
  {
    seq(n, _ => 0.0)
  }

  /**
    The money `fit` writes at row `i`. The call passes the moving average as
    `price` and the row's close as `ma_price`, the reverse of the order
    `adjust_rate` declares.
  */
  function Contribution(s: seq<Quote>, cfg: Config, t: Transcendentals, i: nat): (r: Result<real>)
    requires i < |s| && Valid(s[i].date)
    ensures MovingAvg(s, s[i].date, cfg.maPeriod).Err? ==> r == Err(MovingAvg(s, s[i].date, cfg.maPeriod).error)
    ensures MovingAvg(s, s[i].date, cfg.maPeriod).Ok? ==>
      var rate := AdjustRate(MovingAvg(s, s[i].date, cfg.maPeriod).value, s[i].close,
                             cfg.selector, cfg.minRate, cfg.maxRate, t);
      (r.Ok? <==> rate.Ok?) && (r.Ok? ==> r.value == UNIT * rate.value) && (r.Err? ==> r.error == rate.error)
  {
    var ma :- MovingAvg(s, s[i].date, cfg.maPeriod);
    var rate :- AdjustRate(ma, s[i].close, cfg.selector, cfg.minRate, cfg.maxRate, t);
    Ok(UNIT * rate)
  }

  /** `get_end_days(start_date)` and `next_trade_day(start_date)`, after reading the start string. */
  function Prepare(s: seq<Quote>, cfg: Config): (r: Result<Plan>)
    ensures r.Ok? ==> Parse(cfg.start) == Ok(r.value.start) && Valid(r.value.start) && InRange(r.value.start)
    ensures r.Ok? ==> EndDate(r.value.start, cfg.years) == Ok(r.value.end)
    ensures r.Ok? ==> NextTradeDay(s, r.value.start) == Ok(r.value.first) && r.value.first < |s|
    ensures r.Ok? <==> Parse(cfg.start).Ok? && EndDate(Parse(cfg.start).value, cfg.years).Ok?
                       && NextTradeDay(s, Parse(cfg.start).value).Ok?
    ensures r.Err? ==> r.error == (if Parse(cfg.start).Err? then InvalidDate
                                   else if EndDate(Parse(cfg.start).value, cfg.years).Err? then DateOutOfRange
                                   else DateNotFound)
  {
    var start :- Parse(cfg.start);
    var end :- EndDate(start, cfg.years);
    var first :- NextTradeDay(s, start);
    Ok(Plan(start, end, first))
  }

  /** A bound on the steps still possible from nominal date `d` before it leaves the years 1..9999. */
  function Measure(move: Move, d: Date): int
    requires Valid(d)
  {
    if Backward(move) then Ordinal(d) - Ordinal(Date(MIN_YEAR, 1, 1))
    else Ordinal(Date(MAX_YEAR, 12, 31)) - Ordinal(d)
  }

  /** Every row carries a real calendar date. */
  predicate DatesValid(s: seq<Quote>) {
    forall i :: 0 <= i < |s| ==> Valid(s[i].date)
  }

  /** The money of every row, in series order; the loop reads the entry of each row it reaches. */
  function Contributions(s: seq<Quote>, cfg: Config, t: Transcendentals): (c: seq<Result<real>>)
    requires DatesValid(s)
    ensures |c| == |s| && forall i :: 0 <= i < |s| ==> c[i] == Contribution(s, cfg, t, i)
  {
    seq(|s|, i requires 0 <= i < |s| => Contribution(s, cfg, t, i))
  }

  predicate RunPre(s: seq<Quote>, period: Move, pays: seq<Result<real>>, nominal: Date, trade: nat,
                   table: seq<real>) {
    Valid(nominal) && InRange(nominal) && trade < |s| && |pays| == |s| && |table| == |s|
    && period != Days(0)
  }

  /**
    The `while next_trade_date <= end_date` loop from the state (nominal
    date, trading row, table, rows written so far), with `pays[i]` the money
    of row `i`. The string test holds exactly when the trading date is
    strictly before the end date (`DateText.EndTestIsStrict`).
  */
  function Run(s: seq<Quote>, period: Move, pays: seq<Result<real>>, end: Date,
               nominal: Date, trade: nat, table: seq<real>, visits: seq<nat>): (r: Result<Trace>)
    requires RunPre(s, period, pays, nominal, trade, table)
    ensures r.Ok? ==> r.value.last < |s| && |r.value.table| == |s|
    decreases Measure(period, nominal)
  {
    if !Before(s[trade].date, end) then Ok(Trace(table, visits, trade))
    else
      var money :- pays[trade];
      var next :- Step(nominal, period);
      var nextTrade :- NextTradeDay(s, next);
      MeasureDecreases(period, nominal, next);
      Run(s, period, pays, end, next, nextTrade, table[trade := money], visits + [trade])
  }

  /** Everything up to the end of the loop. */
  function Simulate(s: seq<Quote>, cfg: Config, t: Transcendentals): (r: Result<Outcome>)
    requires WellFormed(s) && cfg.period != Days(0)
    ensures r.Ok? ==> Prepare(s, cfg) == Ok(r.value.plan)
    ensures r.Ok? ==> r.value.trace.last < |s| && |r.value.trace.table| == |s|
    ensures Prepare(s, cfg).Err? ==> r == Err(Prepare(s, cfg).error)
    ensures Prepare(s, cfg).Ok? ==>
      var p := Prepare(s, cfg).value;
      var run := Run(s, cfg.period, Contributions(s, cfg, t), p.end, p.start, p.first, Zeros(|s|), []);
      (r.Ok? <==> run.Ok?) && (r.Ok? ==> r.value.trace == run.value) && (r.Err? ==> r.error == run.error)
  {
    var plan :- Prepare(s, cfg);
    var trace :- Run(s, cfg.period, Contributions(s, cfg, t), plan.end, plan.start, plan.first, Zeros(|s|), []);
    Ok(Outcome(plan, trace))
  }

  function Sum(m: seq<real>): real {
    if m == [] then 0.0 else m[0] + Sum(m[1..])
  }

  /** The quantity bought, money divided by close, summed over the rows. */
  function Quantity(q: seq<Quote>, m: seq<real>): (r: real)
    requires |q| == |m|
    requires forall i :: 0 <= i < |q| ==> q[i].close > 0.0
    ensures (forall i :: 0 <= i < |m| ==> m[i] >= 0.0) ==> r >= 0.0
  {
    if m == [] then 0.0 else m[0] / q[0].close + Quantity(q[1..], m[1..])
  }

  /**
    The return over the rows `lo..hi` (the slice `loc[start_date:end_cal_date]`):
    total quantity times the last close, over total money, minus one.
  */
  function Settle(s: seq<Quote>, table: seq<real>, lo: nat, hi: nat): (r: Result<real>)
    requires WellFormed(s) && |table| == |s| && hi <= |s|
    ensures r.Ok? <==> lo < hi && Sum(table[lo..hi]) != 0.0
    ensures r.Err? ==> r.error == (if hi <= lo then EmptySlice else DivisionByZero)
  {
    if hi <= lo then Err(EmptySlice)
    else
      var money := Sum(table[lo..hi]);
      if money == 0.0 then Err(DivisionByZero)
      else Ok(Quantity(s[lo..hi], table[lo..hi]) * s[hi - 1].close / money - 1.0)
  }

  /** `fit()`: the whole run, from the configuration to the return. */
  function FitSpec(s: seq<Quote>, cfg: Config, t: Transcendentals): (r: Result<real>)
    requires WellFormed(s) && cfg.period != Days(0)
    ensures Simulate(s, cfg, t).Err? ==> r == Err(Simulate(s, cfg, t).error)
    ensures r.Ok? ==> Simulate(s, cfg, t).Ok? && Step(s[Simulate(s, cfg, t).value.trace.last].date, cfg.period).Ok?
    ensures r.Ok? ==>
      var o := Simulate(s, cfg, t).value;
      var hi := UpperIndex(s, Step(s[o.trace.last].date, cfg.period).value);
      o.plan.first < hi && Sum(o.trace.table[o.plan.first..hi]) != 0.0
    ensures Simulate(s, cfg, t).Ok? && Step(s[Simulate(s, cfg, t).value.trace.last].date, cfg.period).Err? ==>
      r == Err(Step(s[Simulate(s, cfg, t).value.trace.last].date, cfg.period).error)
    ensures Simulate(s, cfg, t).Ok? && Step(s[Simulate(s, cfg, t).value.trace.last].date, cfg.period).Ok? ==>
      var o := Simulate(s, cfg, t).value;
      var hi := UpperIndex(s, Step(s[o.trace.last].date, cfg.period).value);
      (r.Ok? <==> o.plan.first < hi && Sum(o.trace.table[o.plan.first..hi]) != 0.0) &&
      (r.Err? ==> r.error == (if hi <= o.plan.first then EmptySlice else DivisionByZero))
  {
    var o :- Simulate(s, cfg, t);
    var endCal :- Step(s[o.trace.last].date, cfg.period);
    Settle(s, o.trace.table, o.plan.first, UpperIndex(s, endCal))
  }

  /**
    `fit()` as the program runs it: a money array reset to zero, a loop that
    writes into it in place, then the settlement over the slice.
  */
  method Fit(s: seq<Quote>, cfg: Config, t: Transcendentals) returns (r: Result<real>)
    requires WellFormed(s)
    requires cfg.period != Days(0)
    ensures r == FitSpec(s, cfg, t)
  {
    var plan :- Prepare(s, cfg);
    var money := new real[|s|](_ => 0.0);
    assert money[..] == Zeros(|s|);
    var nominal, trade := plan.start, plan.first;
    ghost var pays := Contributions(s, cfg, t);
    ghost var visits: seq<nat> := [];
    while Before(s[trade].date, plan.end)
      invariant RunPre(s, cfg.period, pays, nominal, trade, money[..])
      invariant Run(s, cfg.period, pays, plan.end, nominal, trade, money[..], visits)
             == Run(s, cfg.period, pays, plan.end, plan.start, plan.first, Zeros(|s|), [])
      decreases Measure(cfg.period, nominal)
    {
      var m :- Contribution(s, cfg, t, trade);
      money[trade] := m;
      var next :- Step(nominal, cfg.period);
      var nextTrade :- NextTradeDay(s, next);
      MeasureDecreases(cfg.period, nominal, next);
      visits := visits + [trade];
      nominal, trade := next, nextTrade;
    }
    var endCal :- Step(s[trade].date, cfg.period);
    r := Settle(s, money[..], plan.first, UpperIndex(s, endCal));
  }

  // ---------------------------------------------------------------- lemmas

  /** Each step of the nominal date uses up part of the bounded date range: the loop terminates. */
  lemma MeasureDecreases(move: Move, d: Date, next: Date)
    requires Valid(d) && InRange(d) && move != Days(0) && Step(d, move) == Ok(next)
    ensures 0 <= Measure(move, next) < Measure(move, d)
  {
    var lo, hi := Date(MIN_YEAR, 1, 1), Date(MAX_YEAR, 12, 31);
    assert Valid(next) && InRange(next);
    if Backward(move) {
      assert Before(next, d);
      OrdinalMonotone(next, d);
      OrdinalMonotone(next, lo);
    } else {
      assert Forward(move);
      assert Before(d, next);
      OrdinalMonotone(d, next);
      OrdinalMonotone(hi, next);
    }
  }

  /** The swapped call under 'linear': the multiplier is `2 - ma / close`, capped, so it rises with the close. */
  lemma ContributionLinear(s: seq<Quote>, cfg: Config, t: Transcendentals, i: nat)
    requires WellFormed(s) && i < |s| && cfg.selector == "linear"
    requires MovingAvg(s, s[i].date, cfg.maPeriod).Ok?
    ensures Contribution(s, cfg, t, i)
         == Ok(UNIT * Min(2.0 - MovingAvg(s, s[i].date, cfg.maPeriod).value / s[i].close, cfg.maxRate))
  {
    SwappedPercent(MovingAvg(s, s[i].date, cfg.maPeriod).value, s[i].close);
  }

  lemma SwappedPercent(ma: real, c: real)
    requires c != 0.0
    ensures 1.0 + Percent(ma, c) == 2.0 - ma / c
  {
    var q, p := ma / c, Percent(ma, c);
    assert q * c == ma;
    assert p * c == c - ma;
    assert (p - (1.0 - q)) * c == 0.0;
    Cancel(p - (1.0 - q), c);
  }

  lemma Cancel(x: real, c: real)
    requires c != 0.0 && x * c == 0.0
    ensures x == 0.0
  {
  }

  /** The swapped call under 'ali': the tier is driven by how far the close lies BELOW its average. */
  lemma ContributionAli(s: seq<Quote>, cfg: Config, t: Transcendentals, i: nat)
    requires WellFormed(s) && i < |s| && cfg.selector == "ali"
    requires MovingAvg(s, s[i].date, cfg.maPeriod).Ok?
    ensures Contribution(s, cfg, t, i)
         == Ok(UNIT * AliTier((MovingAvg(s, s[i].date, cfg.maPeriod).value - s[i].close) / s[i].close))
  {
  }

  /** Under 'null' every row the loop reaches receives exactly the nominal 1000. */
  lemma ContributionNull(s: seq<Quote>, cfg: Config, t: Transcendentals, i: nat)
    requires WellFormed(s) && i < |s| && cfg.selector == "null"
    requires MovingAvg(s, s[i].date, cfg.maPeriod).Ok?
    ensures Contribution(s, cfg, t, i) == Ok(UNIT)
  {
  }

  /** An unrecognised selector fails the first contribution (once its moving average exists). */
  lemma ContributionUnknownSelector(s: seq<Quote>, cfg: Config, t: Transcendentals, i: nat)
    requires WellFormed(s) && i < |s| && !KnownFunction(cfg.selector)
    requires MovingAvg(s, s[i].date, cfg.maPeriod).Ok?
    ensures Contribution(s, cfg, t, i) == Err(InvalidFunction)
  {
  }

  /** The loop only appends to the rows written so far. */
  lemma {:induction false} RunExtends(s: seq<Quote>, period: Move, pays: seq<Result<real>>, end: Date,
                                      nominal: Date, trade: nat, table: seq<real>, visits: seq<nat>)
    requires RunPre(s, period, pays, nominal, trade, table)
    requires Run(s, period, pays, end, nominal, trade, table, visits).Ok?
    ensures var tr := Run(s, period, pays, end, nominal, trade, table, visits).value;
      |visits| <= |tr.visits| && tr.visits[..|visits|] == visits
    decreases Measure(period, nominal)
  {
    if Before(s[trade].date, end) {
      var next := Step(nominal, period).value;
      var nextTrade := NextTradeDay(s, next).value;
      MeasureDecreases(period, nominal, next);
      var table', visits' := table[trade := pays[trade].value], visits + [trade];
      RunExtends(s, period, pays, end, next, nextTrade, table', visits');
      var tr := Run(s, period, pays, end, nominal, trade, table, visits).value;
      assert tr == Run(s, period, pays, end, next, nextTrade, table', visits').value;
      assert tr.visits[..|visits'|][..|visits|] == tr.visits[..|visits|];
    }
  }

  /** Row `v` may be written by a loop ending at `end`: it exists, is dated before `end` and has money. */
  predicate Writable(s: seq<Quote>, pays: seq<Result<real>>, end: Date, v: nat) {
    v < |s| && v < |pays| && Before(s[v].date, end) && pays[v].Ok?
  }

  /** The row that ends the loop is dated on or after the end date. */
  lemma {:induction false} RunLast(s: seq<Quote>, period: Move, pays: seq<Result<real>>, end: Date,
                                   nominal: Date, trade: nat, table: seq<real>, visits: seq<nat>)
    requires RunPre(s, period, pays, nominal, trade, table)
    requires Run(s, period, pays, end, nominal, trade, table, visits).Ok?
    ensures !Before(s[Run(s, period, pays, end, nominal, trade, table, visits).value.last].date, end)
    decreases Measure(period, nominal)
  {
    if Before(s[trade].date, end) {
      var next := Step(nominal, period).value;
      MeasureDecreases(period, nominal, next);
      RunLast(s, period, pays, end, next, NextTradeDay(s, next).value, table[trade := pays[trade].value],
              visits + [trade]);
    }
  }

  /** Every row in `visits` may be written and holds its money in `table`. */
  predicate Consistent(s: seq<Quote>, pays: seq<Result<real>>, end: Date, table: seq<real>, visits: seq<nat>) {
    forall k :: 0 <= k < |visits| ==>
      Writable(s, pays, end, visits[k]) && visits[k] < |table| && table[visits[k]] == pays[visits[k]].value
  }

  /**
    The loop keeps every written row holding its money: a row written
    several times gets the same amount each time.
  */
  lemma {:induction false} RunWritten(s: seq<Quote>, period: Move, pays: seq<Result<real>>, end: Date,
                                      nominal: Date, trade: nat, table: seq<real>, visits: seq<nat>)
    requires RunPre(s, period, pays, nominal, trade, table)
    requires Run(s, period, pays, end, nominal, trade, table, visits).Ok?
    requires Consistent(s, pays, end, table, visits)
    ensures var tr := Run(s, period, pays, end, nominal, trade, table, visits).value;
      Consistent(s, pays, end, tr.table, tr.visits)
    decreases Measure(period, nominal)
  {
    if Before(s[trade].date, end) {
      var next := Step(nominal, period).value;
      var nextTrade := NextTradeDay(s, next).value;
      MeasureDecreases(period, nominal, next);
      var table', visits' := table[trade := pays[trade].value], visits + [trade];
      assert Consistent(s, pays, end, table', visits') by {
        forall k | 0 <= k < |visits'|
          ensures Writable(s, pays, end, visits'[k]) && table'[visits'[k]] == pays[visits'[k]].value
        {
          if k < |visits| {
            assert visits'[k] == visits[k];
          }
        }
      }
      RunWritten(s, period, pays, end, next, nextTrade, table', visits');
    }
  }

  /** Every row absent from the rows written, before the loop and by it, keeps what it held before. */
  lemma {:induction false} RunUntouched(s: seq<Quote>, period: Move, pays: seq<Result<real>>, end: Date,
                                        nominal: Date, trade: nat, table: seq<real>, visits: seq<nat>)
    requires RunPre(s, period, pays, nominal, trade, table)
    requires Run(s, period, pays, end, nominal, trade, table, visits).Ok?
    ensures var tr := Run(s, period, pays, end, nominal, trade, table, visits).value;
      forall i :: 0 <= i < |s| && i !in tr.visits ==> tr.table[i] == table[i]
    decreases Measure(period, nominal)
  {
    if Before(s[trade].date, end) {
      var next := Step(nominal, period).value;
      var nextTrade := NextTradeDay(s, next).value;
      MeasureDecreases(period, nominal, next);
      var table', visits' := table[trade := pays[trade].value], visits + [trade];
      RunUntouched(s, period, pays, end, next, nextTrade, table', visits');
      RunExtends(s, period, pays, end, next, nextTrade, table', visits');
      var tr := Run(s, period, pays, end, nominal, trade, table, visits).value;
      assert tr == Run(s, period, pays, end, next, nextTrade, table', visits').value;
      assert tr.visits[..|visits'|] == visits';
      assert tr.visits[|visits|] == tr.visits[..|visits'|][|visits|] == trade;
    }
  }

  /**
    For a forward period the rows the loop writes never go back: once every
    row written so far lies between `lo` and the current row, every row
    written by the end lies between `lo` and the row that ends the loop.
  */
  lemma {:induction false} RunBounded(s: seq<Quote>, period: Move, pays: seq<Result<real>>, end: Date,
                                      nominal: Date, trade: nat, table: seq<real>, visits: seq<nat>, lo: nat)
    requires RunPre(s, period, pays, nominal, trade, table) && Forward(period) && WellFormed(s)
    requires NextTradeDay(s, nominal) == Ok(trade)
    requires Run(s, period, pays, end, nominal, trade, table, visits).Ok?
    requires lo <= trade && forall k :: 0 <= k < |visits| ==> lo <= visits[k] <= trade
    ensures var tr := Run(s, period, pays, end, nominal, trade, table, visits).value;
      lo <= tr.last && forall k :: 0 <= k < |tr.visits| ==> lo <= tr.visits[k] <= tr.last
    decreases Measure(period, nominal)
  {
    if Before(s[trade].date, end) {
      var next := Step(nominal, period).value;
      var nextTrade := NextTradeDay(s, next).value;
      MeasureDecreases(period, nominal, next);
      StepNeverGoesBack(s, period, nominal, trade);
      BoundedAppend(visits, trade, lo, nextTrade);
      RunBounded(s, period, pays, end, next, nextTrade, table[trade := pays[trade].value], visits + [trade], lo);
    }
  }

  /** A forward step of the nominal date never resolves to an earlier row. */
  lemma StepNeverGoesBack(s: seq<Quote>, period: Move, nominal: Date, trade: nat)
    requires WellFormed(s) && Forward(period) && Valid(nominal) && NextTradeDay(s, nominal) == Ok(trade)
    requires Step(nominal, period).Ok? && NextTradeDay(s, Step(nominal, period).value).Ok?
    ensures trade <= NextTradeDay(s, Step(nominal, period).value).value
  {
    NextTradeDayMonotone(s, nominal, Step(nominal, period).value);
  }

  lemma BoundedAppend(v: seq<nat>, x: nat, lo: nat, y: nat)
    requires lo <= x <= y && forall k :: 0 <= k < |v| ==> lo <= v[k] <= x
    ensures forall k :: 0 <= k < |v + [x]| ==> lo <= (v + [x])[k] <= y
  {
    assert forall k :: 0 <= k < |v| ==> (v + [x])[k] == v[k];
  }

  predicate Sorted(v: seq<nat>) {
    forall k1, k2 :: 0 <= k1 < k2 < |v| ==> v[k1] <= v[k2]
  }

  lemma SortedAppend(v: seq<nat>, x: nat, y: nat)
    requires Sorted(v) && x <= y && forall k :: 0 <= k < |v| ==> v[k] <= x
    ensures Sorted(v + [x]) && forall k :: 0 <= k < |v + [x]| ==> (v + [x])[k] <= y
  {
    assert forall k :: 0 <= k < |v| ==> (v + [x])[k] == v[k];
  }

  /**
    For a forward period the rows the loop writes come in non-decreasing
    order, continuing any sorted prefix that does not pass the current row.
  */
  lemma {:induction false} RunOrdered(s: seq<Quote>, period: Move, pays: seq<Result<real>>, end: Date,
                                      nominal: Date, trade: nat, table: seq<real>, visits: seq<nat>)
    requires RunPre(s, period, pays, nominal, trade, table) && Forward(period) && WellFormed(s)
    requires NextTradeDay(s, nominal) == Ok(trade)
    requires Run(s, period, pays, end, nominal, trade, table, visits).Ok?
    requires Sorted(visits) && forall k :: 0 <= k < |visits| ==> visits[k] <= trade
    ensures Sorted(Run(s, period, pays, end, nominal, trade, table, visits).value.visits)
    decreases Measure(period, nominal)
  {
    if Before(s[trade].date, end) {
      var next := Step(nominal, period).value;
      var nextTrade := NextTradeDay(s, next).value;
      MeasureDecreases(period, nominal, next);
      StepNeverGoesBack(s, period, nominal, trade);
      SortedAppend(visits, trade, nextTrade);
      RunOrdered(s, period, pays, end, next, nextTrade, table[trade := pays[trade].value], visits + [trade]);
    }
  }

  /**
    `path` holds the nominal dates of the turns so far and the current one:
    each resolves to the row written on its turn, and each is one `daymove`
    step from the one before.
  */
  predicate Chain(s: seq<Quote>, period: Move, path: seq<Date>, visits: seq<nat>) {
    |path| == |visits| + 1 && (forall k :: 0 <= k < |path| ==> Valid(path[k])) &&
    forall k :: 0 <= k < |visits| ==>
      NextTradeDay(s, path[k]) == Ok(visits[k]) && Step(path[k], period) == Ok(path[k + 1])
  }

  lemma ChainStep(s: seq<Quote>, period: Move, path: seq<Date>, visits: seq<nat>, trade: nat, next: Date)
    requires Chain(s, period, path, visits)
    requires NextTradeDay(s, path[|visits|]) == Ok(trade) && Step(path[|visits|], period) == Ok(next)
    ensures Chain(s, period, path + [next], visits + [trade])
  {
    var p, v := path + [next], visits + [trade];
    assert forall k :: 0 <= k < |path| ==> p[k] == path[k];
    assert forall k :: 0 <= k < |p| ==> Valid(p[k]);
    forall k | 0 <= k < |visits|
      ensures NextTradeDay(s, p[k]) == Ok(v[k]) && Step(p[k], period) == Ok(p[k + 1])
    {
      assert v[k] == visits[k] && p[k] == path[k] && p[k + 1] == path[k + 1];
    }
    assert v[|visits|] == trade && p[|visits|] == path[|visits|] && p[|visits| + 1] == next;
  }

  /**
    Nominal stepping: the loop extends the chain of nominal dates one
    `daymove` step per turn, each step taken from the previous nominal date
    and never from the trading date, and ends at the row of the last one.
  */
  lemma {:induction false} RunChain(s: seq<Quote>, period: Move, pays: seq<Result<real>>, end: Date,
                                    nominal: Date, trade: nat, table: seq<real>, visits: seq<nat>,
                                    path: seq<Date>) returns (path': seq<Date>)
    requires RunPre(s, period, pays, nominal, trade, table)
    requires Run(s, period, pays, end, nominal, trade, table, visits).Ok?
    requires Chain(s, period, path, visits) && path[|visits|] == nominal && NextTradeDay(s, nominal) == Ok(trade)
    ensures var tr := Run(s, period, pays, end, nominal, trade, table, visits).value;
      && Chain(s, period, path', tr.visits) && path'[0] == path[0]
      && NextTradeDay(s, path'[|tr.visits|]) == Ok(tr.last)
    decreases Measure(period, nominal)
  {
    if Before(s[trade].date, end) {
      var next := Step(nominal, period).value;
      var nextTrade := NextTradeDay(s, next).value;
      MeasureDecreases(period, nominal, next);
      ChainStep(s, period, path, visits, trade, next);
      path' := RunChain(s, period, pays, end, next, nextTrade, table[trade := pays[trade].value], visits + [trade],
                        path + [next]);
    } else {
      path' := path;
    }
  }

  /** A chain of `daymove` steps from `start` is the sequence of nominal dates from `start`. */
  lemma {:induction false} ChainIsNominal(s: seq<Quote>, period: Move, path: seq<Date>, visits: seq<nat>, j: nat)
    requires Chain(s, period, path, visits) && j <= |visits|
    ensures Nominal(path[0], period, j) == Ok(path[j])
  {
    if j > 0 {
      ChainIsNominal(s, period, path, visits, j - 1);
      NominalNext(path[0], period, j - 1, path[j - 1]);
    }
  }

  lemma NominalNext(start: Date, period: Move, k: nat, nominal: Date)
    requires Valid(start) && Nominal(start, period, k) == Ok(nominal)
    ensures Nominal(start, period, k + 1) == Step(nominal, period)
  {
  }

  /**
    The rows a run writes are exactly the resolved nominal dates, in turn:
    the `k`-th row written is `next_trade_day` of the start date stepped `k`
    times, and the row that ends the loop is that of the following step.
  */
  lemma SimulateNominal(s: seq<Quote>, cfg: Config, t: Transcendentals)
    requires WellFormed(s) && cfg.period != Days(0) && Simulate(s, cfg, t).Ok?
    ensures var o := Simulate(s, cfg, t).value;
      && (forall k :: 0 <= k < |o.trace.visits| ==>
            Nominal(o.plan.start, cfg.period, k).Ok?
            && NextTradeDay(s, Nominal(o.plan.start, cfg.period, k).value) == Ok(o.trace.visits[k]))
      && Nominal(o.plan.start, cfg.period, |o.trace.visits|).Ok?
      && NextTradeDay(s, Nominal(o.plan.start, cfg.period, |o.trace.visits|).value) == Ok(o.trace.last)
  {
    var plan := Prepare(s, cfg).value;
    var o := Simulate(s, cfg, t).value;
    var path := RunChain(s, cfg.period, Contributions(s, cfg, t), plan.end, plan.start, plan.first, Zeros(|s|), [],
                         [plan.start]);
    forall k | 0 <= k <= |o.trace.visits|
      ensures Nominal(o.plan.start, cfg.period, k) == Ok(path[k])
    {
      ChainIsNominal(s, cfg.period, path, o.trace.visits, k);
    }
  }

  /**
    Under 'monthly' the `k`-th row written is the trading day on or after
    the start date stepped `k` times by one month: the day of month, once
    clamped, stays clamped (`Moves.MonthlyDayNeverGrows`).
  */
  lemma SimulateMonthly(s: seq<Quote>, cfg: Config, t: Transcendentals, k: nat)
    requires WellFormed(s) && cfg.period == Word("monthly") && Simulate(s, cfg, t).Ok?
    requires k < |Simulate(s, cfg, t).value.trace.visits|
    ensures var o := Simulate(s, cfg, t).value;
      NextTradeDay(s, MonthlySteps(o.plan.start, k)) == Ok(o.trace.visits[k])
  {
    var o := Simulate(s, cfg, t).value;
    SimulateNominal(s, cfg, t);
    NominalMonthly(o.plan.start, k);
  }

  /**
    The money table of a run: the rows the loop wrote hold their
    contribution (1000 times the rate), every other row keeps the 0 of the
    reset; each written row is dated strictly before the end date (for
    forward periods `SimulateOrdered` places them after the first trading row).
  */
  lemma SimulateTable(s: seq<Quote>, cfg: Config, t: Transcendentals)
    requires WellFormed(s) && cfg.period != Days(0) && Simulate(s, cfg, t).Ok?
    ensures var o := Simulate(s, cfg, t).value;
      forall v :: v in o.trace.visits ==>
        && v < |s| && Before(s[v].date, o.plan.end) && Contribution(s, cfg, t, v).Ok?
        && o.trace.table[v] == Contribution(s, cfg, t, v).value
    ensures var o := Simulate(s, cfg, t).value;
      forall i :: 0 <= i < |s| && i !in o.trace.visits ==> o.trace.table[i] == 0.0
    ensures var o := Simulate(s, cfg, t).value;
      !Before(s[o.trace.last].date, o.plan.end)
  {
    var plan := Prepare(s, cfg).value;
    var pays := Contributions(s, cfg, t);
    RunWritten(s, cfg.period, pays, plan.end, plan.start, plan.first, Zeros(|s|), []);
    RunUntouched(s, cfg.period, pays, plan.end, plan.start, plan.first, Zeros(|s|), []);
    RunLast(s, cfg.period, pays, plan.end, plan.start, plan.first, Zeros(|s|), []);
    var o := Simulate(s, cfg, t).value;
    assert o.trace == Run(s, cfg.period, pays, plan.end, plan.start, plan.first, Zeros(|s|), []).value;
    forall v | v in o.trace.visits
      ensures v < |s| && Before(s[v].date, o.plan.end) && Contribution(s, cfg, t, v).Ok?
      ensures o.trace.table[v] == Contribution(s, cfg, t, v).value
    {
      var k :| 0 <= k < |o.trace.visits| && o.trace.visits[k] == v;
    }
  }

  /** With a forward period the written rows come in non-decreasing order, from the first trading row on. */
  lemma SimulateOrdered(s: seq<Quote>, cfg: Config, t: Transcendentals)
    requires WellFormed(s) && Forward(cfg.period) && Simulate(s, cfg, t).Ok?
    ensures var o := Simulate(s, cfg, t).value;
      && o.plan.first <= o.trace.last
      && (forall k1, k2 :: 0 <= k1 < k2 < |o.trace.visits| ==> o.trace.visits[k1] <= o.trace.visits[k2])
      && (forall k :: 0 <= k < |o.trace.visits| ==> o.plan.first <= o.trace.visits[k] <= o.trace.last)
  {
    var plan := Prepare(s, cfg).value;
    RunBounded(s, cfg.period, Contributions(s, cfg, t), plan.end, plan.start, plan.first, Zeros(|s|), [], plan.first);
    RunOrdered(s, cfg.period, Contributions(s, cfg, t), plan.end, plan.start, plan.first, Zeros(|s|), []);
  }

  /**
    With a forward period the settlement slice, from the first trading row
    to the last row dated on or before one period after the row that ended
    the loop, holds every row the loop wrote.
  */
  lemma SettlementCoversRun(s: seq<Quote>, cfg: Config, t: Transcendentals)
    requires WellFormed(s) && Forward(cfg.period) && Simulate(s, cfg, t).Ok?
    requires Step(s[Simulate(s, cfg, t).value.trace.last].date, cfg.period).Ok?
    ensures var o := Simulate(s, cfg, t).value;
      var hi := UpperIndex(s, Step(s[o.trace.last].date, cfg.period).value);
      o.plan.first <= o.trace.last < hi && forall v :: v in o.trace.visits ==> o.plan.first <= v < hi
  {
    var o := Simulate(s, cfg, t).value;
    var last := o.trace.last;
    var endCal := Step(s[last].date, cfg.period).value;
    SimulateOrdered(s, cfg, t);
    assert Before(s[last].date, endCal);
    UpperIndexPast(s, last, endCal);
    forall v | v in o.trace.visits
      ensures o.plan.first <= v < UpperIndex(s, endCal)
    {
      var k :| 0 <= k < |o.trace.visits| && o.trace.visits[k] == v;
    }
  }

  /** A row dated before `d` lies inside the label slice that ends at `d`. */
  lemma UpperIndexPast(s: seq<Quote>, k: nat, d: Date)
    requires WellFormed(s) && k < |s| && Before(s[k].date, d)
    ensures k < UpperIndex(s, d)
  {
  }

  /** Rows outside `lo..hi` that hold 0 add nothing: the slice sums to the whole table. */
  lemma SumOfSlice(m: seq<real>, lo: nat, hi: nat)
    requires lo <= hi <= |m|
    requires forall i :: 0 <= i < |m| && !(lo <= i < hi) ==> m[i] == 0.0
    ensures Sum(m[lo..hi]) == Sum(m)
  {
    assert m == m[..lo] + m[lo..hi] + m[hi..];
    SumAppend(m[..lo] + m[lo..hi], m[hi..]);
    SumAppend(m[..lo], m[lo..hi]);
    SumZeros(m[..lo]);
    SumZeros(m[hi..]);
  }

  lemma {:induction false} SumAppend(a: seq<real>, b: seq<real>)
    ensures Sum(a + b) == Sum(a) + Sum(b)
  {
    if a != [] {
      assert (a + b)[1..] == a[1..] + b;
      SumAppend(a[1..], b);
    } else {
      assert a + b == b;
    }
  }

  lemma {:induction false} SumZeros(m: seq<real>)
    requires forall i :: 0 <= i < |m| ==> m[i] == 0.0
    ensures Sum(m) == 0.0
  {
    if m != [] {
      SumZeros(m[1..]);
    }
  }

  /**
    With a forward period the money the return divides by is all the money
    the run put in: the settlement slice sums to the whole table.
  */
  lemma SettlementCountsAllMoney(s: seq<Quote>, cfg: Config, t: Transcendentals)
    requires WellFormed(s) && Forward(cfg.period) && Simulate(s, cfg, t).Ok?
    requires Step(s[Simulate(s, cfg, t).value.trace.last].date, cfg.period).Ok?
    ensures var o := Simulate(s, cfg, t).value;
      var hi := UpperIndex(s, Step(s[o.trace.last].date, cfg.period).value);
      o.plan.first <= hi && Sum(o.trace.table[o.plan.first..hi]) == Sum(o.trace.table)
  {
    var o := Simulate(s, cfg, t).value;
    var hi := UpperIndex(s, Step(s[o.trace.last].date, cfg.period).value);
    SettlementCoversRun(s, cfg, t);
    SimulateTable(s, cfg, t);
    forall i | 0 <= i < |o.trace.table| && !(o.plan.first <= i < hi)
      ensures o.trace.table[i] == 0.0
    {
      assert i !in o.trace.visits;
    }
    SumOfSlice(o.trace.table, o.plan.first, hi);
  }

  /** Under 'null' every written row holds exactly 1000. */
  lemma SimulateNull(s: seq<Quote>, cfg: Config, t: Transcendentals)
    requires WellFormed(s) && cfg.period != Days(0) && cfg.selector == "null" && Simulate(s, cfg, t).Ok?
    ensures var o := Simulate(s, cfg, t).value;
      forall i :: 0 <= i < |s| ==> o.trace.table[i] == if i in o.trace.visits then UNIT else 0.0
  {
    SimulateTable(s, cfg, t);
    var o := Simulate(s, cfg, t).value;
    forall i | 0 <= i < |s| && i in o.trace.visits
      ensures Contribution(s, cfg, t, i) == Ok(UNIT)
    {
      ContributionOkHasMean(s, cfg, t, i);
      ContributionNull(s, cfg, t, i);
    }
  }

  lemma ContributionOkHasMean(s: seq<Quote>, cfg: Config, t: Transcendentals, i: nat)
    requires WellFormed(s) && i < |s| && Contribution(s, cfg, t, i).Ok?
    ensures MovingAvg(s, s[i].date, cfg.maPeriod).Ok?
  {
  }

  /** The quantity bought at one price `c` everywhere is the money divided by `c`. */
  lemma {:induction false} QuantityAtConstantPrice(q: seq<Quote>, m: seq<real>, c: real)
    requires |q| == |m| && c > 0.0
    requires forall i :: 0 <= i < |q| ==> q[i].close == c
    ensures Quantity(q, m) == Sum(m) / c
  {
    if m != [] {
      QuantityAtConstantPrice(q[1..], m[1..], c);
      assert m[0] / c + Sum(m[1..]) / c == (m[0] + Sum(m[1..])) / c;
    }
  }

  /** Flat prices across the slice give a return of exactly 0. */
  lemma SettleConstantPrice(s: seq<Quote>, table: seq<real>, lo: nat, hi: nat, c: real)
    requires WellFormed(s) && |table| == |s| && hi <= |s| && Settle(s, table, lo, hi).Ok?
    requires forall i :: lo <= i < hi ==> s[i].close == c
    ensures Settle(s, table, lo, hi).value == 0.0
  {
    var m := Sum(table[lo..hi]);
    assert s[hi - 1].close == c;
    QuantityAtConstantPrice(s[lo..hi], table[lo..hi], c);
    assert (m / c) * c / m == 1.0;
  }

  lemma {:induction false} SumNonNegative(m: seq<real>)
    requires forall i :: 0 <= i < |m| ==> m[i] >= 0.0
    ensures Sum(m) >= 0.0
  {
    if m != [] {
      SumNonNegative(m[1..]);
    }
  }

  /** With no negative amount in the slice, the return is never below -1: a run cannot lose more than it put in. */
  lemma SettleAtLeastMinusOne(s: seq<Quote>, table: seq<real>, lo: nat, hi: nat)
    requires WellFormed(s) && |table| == |s| && hi <= |s| && Settle(s, table, lo, hi).Ok?
    requires forall i :: lo <= i < hi ==> table[i] >= 0.0
    ensures Settle(s, table, lo, hi).value >= -1.0
  {
    var m := Sum(table[lo..hi]);
    SumNonNegative(table[lo..hi]);
    var qp := Quantity(s[lo..hi], table[lo..hi]) * s[hi - 1].close;
    assert qp >= 0.0;
    assert qp / m >= 0.0;
  }

  /** A run over a series whose price never changes returns exactly 0 whenever it returns a number. */
  lemma FitConstantPrice(s: seq<Quote>, cfg: Config, t: Transcendentals, c: real)
    requires WellFormed(s) && cfg.period != Days(0) && FitSpec(s, cfg, t).Ok?
    requires forall i :: 0 <= i < |s| ==> s[i].close == c
    ensures FitSpec(s, cfg, t).value == 0.0
  {
    var o := Simulate(s, cfg, t).value;
    var endCal := Step(s[o.trace.last].date, cfg.period).value;
    SettleConstantPrice(s, o.trace.table, o.plan.first, UpperIndex(s, endCal), c);
  }
}
