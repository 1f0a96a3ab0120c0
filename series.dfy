/**
  The price series AIP.py reads from its CSV file, and the two look-ups it
  makes into it: `next_trade_day` (the first series row on or after a date)
  and `moving_avg` (the mean adjusted close over an inclusive date range).
*/
module Series {
  import opened Calendar
  import opened Outcomes

  /** One row of the series: a trading date and its adjusted close. */
  datatype Quote = Quote(date: Date, close: real)

  /** Real dates within Python's range, strictly increasing, with positive prices. */
  predicate WellFormed(s: seq<Quote>) {
    (forall i :: 0 <= i < |s| ==> Valid(s[i].date) && InRange(s[i].date) && s[i].close > 0.0)
    && Increasing(s)
  }

  /** Each row is dated strictly after the one before it: a sorted index without repeated labels. */
  predicate Increasing(s: seq<Quote>) {
    forall i, j :: 0 <= i < j < |s| ==> Before(s[i].date, s[j].date)
  }

  /**
    `next_trade_day(d)`: the position of the first row dated on or after `d`
    (`data.loc[d:].head(1)`), or DateNotFound when every row is earlier.
  */
  function NextTradeDay(s: seq<Quote>, d: Date): (r: Result<nat>)
    ensures r.Ok? ==> r.value < |s| && OnOrBefore(d, s[r.value].date)
    ensures r.Ok? ==> forall j :: 0 <= j < r.value ==> Before(s[j].date, d)
    ensures r.Err? ==> r.error == DateNotFound && forall j :: 0 <= j < |s| ==> Before(s[j].date, d)
  {
    SearchFrom(s, d, 0)
  }

  function SearchFrom(s: seq<Quote>, d: Date, i: nat): (r: Result<nat>)
    requires i <= |s|
    requires forall j :: 0 <= j < i ==> Before(s[j].date, d)
    ensures r.Ok? ==> i <= r.value < |s| && OnOrBefore(d, s[r.value].date)
    ensures r.Ok? ==> forall j :: 0 <= j < r.value ==> Before(s[j].date, d)
    ensures r.Err? ==> r.error == DateNotFound && forall j :: 0 <= j < |s| ==> Before(s[j].date, d)
    decreases |s| - i
  {
    if i == |s| then Err(DateNotFound)
    else if OnOrBefore(d, s[i].date) then Ok(i)
    else SearchFrom(s, d, i + 1)
  }

  /** The number of rows dated on or before `d`: where a label slice ending at `d` stops. */
  function UpperIndex(s: seq<Quote>, d: Date): (k: nat)
    ensures k <= |s|
    ensures forall j :: 0 <= j < k ==> OnOrBefore(s[j].date, d)
    ensures k < |s| ==> Before(d, s[k].date)
  {
    UpperFrom(s, d, 0)
  }

  function UpperFrom(s: seq<Quote>, d: Date, i: nat): (k: nat)
    requires i <= |s|
    requires forall j :: 0 <= j < i ==> OnOrBefore(s[j].date, d)
    ensures i <= k <= |s|
    ensures forall j :: 0 <= j < k ==> OnOrBefore(s[j].date, d)
    ensures k < |s| ==> Before(d, s[k].date)
    decreases |s| - i
  {
    if i == |s| || Before(d, s[i].date) then i else UpperFrom(s, d, i + 1)
  }

  /**
    The rows dated within the inclusive range [lo, hi], in series order
    (`loc[lo:hi]`). On an increasing series the window is increasing too, so
    it holds each row of the range exactly once.
  */
  function InWindow(s: seq<Quote>, lo: Date, hi: Date): (w: seq<Quote>)
    ensures |w| <= |s|
    ensures forall q :: q in w <==> q in s && OnOrBefore(lo, q.date) && OnOrBefore(q.date, hi)
    ensures Increasing(s) ==> Increasing(w)
  {
    if s == [] then []
    else
      var rest := InWindow(s[1..], lo, hi);
      assert forall q :: q in s <==> q == s[0] || q in s[1..];
      if OnOrBefore(lo, s[0].date) && OnOrBefore(s[0].date, hi) then
        assert Increasing(s) ==> Increasing([s[0]] + rest) by {
          if Increasing(s) {
            HeadBeforeTail(s);
            PrependIncreasing(s[0], rest);
          }
        }
        [s[0]] + rest
      else
        assert Increasing(s) ==> Increasing(s[1..]);
        rest
  }

  /** In an increasing sequence the tail is increasing and dated after the head. */
  lemma HeadBeforeTail(s: seq<Quote>)
    requires Increasing(s) && s != []
    ensures Increasing(s[1..]) && forall q :: q in s[1..] ==> Before(s[0].date, q.date)
  {
    forall q | q in s[1..] ensures Before(s[0].date, q.date) {
      var k :| 0 <= k < |s[1..]| && s[1..][k] == q;
      assert s[k + 1] == q;
    }
  }

  /** A row dated before every row of an increasing sequence can go in front of it. */
  lemma PrependIncreasing(q: Quote, w: seq<Quote>)
    requires Increasing(w) && forall r :: r in w ==> Before(q.date, r.date)
    ensures Increasing([q] + w)
  {
    forall i, j | 0 <= i < j < |[q] + w| ensures Before(([q] + w)[i].date, ([q] + w)[j].date) {
      assert ([q] + w)[j] == w[j - 1];
      if i > 0 {
        assert ([q] + w)[i] == w[i - 1];
      } else {
        assert w[j - 1] in w;
      }
    }
  }

  function SumCloses(w: seq<Quote>): real {
    if w == [] then 0.0 else w[0].close + SumCloses(w[1..])
  }

  /** The arithmetic mean of the closes; an empty window has none (NaN in pandas). */
  function Mean(w: seq<Quote>): (r: Result<real>)
    ensures r.Ok? <==> w != []
    ensures r.Err? ==> r.error == UndefinedMean
    ensures r.Ok? ==> r.value * (|w| as real) == SumCloses(w)
  {
    if w == [] then Err(UndefinedMean) else Ok(SumCloses(w) / (|w| as real))
  }

  /** The first date of the moving-average window ending at `last`. */
  function WindowStart(last: Date, period: int): Date
    requires Valid(last)
  {
    AddDays(last, -period)
  }

  /** The rows the moving average ending at `last` averages. */
  function Window(s: seq<Quote>, last: Date, period: int): (w: seq<Quote>)
    requires Valid(last)
    ensures forall q :: q in w <==> q in s && OnOrBefore(WindowStart(last, period), q.date) && OnOrBefore(q.date, last)
    ensures Increasing(s) ==> Increasing(w)
  {
    InWindow(s, WindowStart(last, period), last)
  }

  /**
    `moving_avg(last, period)`: the mean close of the rows dated from
    `last - period days` to `last`, both ends included.
  */
  function MovingAvg(s: seq<Quote>, last: Date, period: int): (r: Result<real>)
    requires Valid(last)
    ensures r.Ok? <==> InRange(WindowStart(last, period)) && Window(s, last, period) != []
    ensures r.Err? ==> r.error == (if InRange(WindowStart(last, period)) then UndefinedMean else DateOutOfRange)
    ensures r.Ok? ==> r == Mean(Window(s, last, period))
  {
    if !InRange(WindowStart(last, period)) then Err(DateOutOfRange) else Mean(Window(s, last, period))
  }

  // ---------------------------------------------------------------- lemmas

  /** Two increasing sequences with the same rows are equal: membership and order determine a window. */
  lemma {:induction false} IncreasingUnique(a: seq<Quote>, b: seq<Quote>)
    requires Increasing(a) && Increasing(b)
    requires forall q :: q in a <==> q in b
    ensures a == b
  {
    if a == [] {
      HeadIn(b);
    } else {
      assert a[0] in b;
      FirstIsLeast(a, b[0]);
      FirstIsLeast(b, a[0]);
      SameDateIsFirst(a, b[0]);
      forall q ensures q in a[1..] <==> q in b[1..] {
        InTail(a, q);
        InTail(b, q);
      }
      IncreasingUnique(a[1..], b[1..]);
    }
  }

  lemma HeadIn(b: seq<Quote>)
    ensures |b| > 0 ==> b[0] in b
  {
  }

  /** The first row of an increasing sequence is dated on or before every row of it. */
  lemma FirstIsLeast(a: seq<Quote>, q: Quote)
    requires Increasing(a) && q in a
    ensures OnOrBefore(a[0].date, q.date)
  {
    var k :| 0 <= k < |a| && a[k] == q;
  }

  /** In an increasing sequence only the first row carries the first date. */
  lemma SameDateIsFirst(a: seq<Quote>, q: Quote)
    requires Increasing(a) && q in a && q.date == a[0].date
    ensures q == a[0]
  {
    var k :| 0 <= k < |a| && a[k] == q;
    assert !Before(a[0].date, a[k].date);
  }

  /** In an increasing sequence the tail holds every row but the first. */
  lemma InTail(a: seq<Quote>, q: Quote)
    requires Increasing(a) && a != []
    ensures q in a[1..] <==> q in a && q != a[0]
  {
    if q in a[1..] {
      var k :| 0 <= k < |a[1..]| && a[1..][k] == q;
      assert Before(a[0].date, a[k + 1].date);
    }
    if q in a && q != a[0] {
      var k :| 0 <= k < |a| && a[k] == q;
      assert a[1..][k - 1] == q;
    }
  }

  /**
    The moving-average window is the only increasing sequence of the rows in
    its range: its mean is determined by the range alone.
  */
  lemma WindowUnique(s: seq<Quote>, last: Date, period: int, w: seq<Quote>)
    requires WellFormed(s) && Valid(last) && Increasing(w)
    requires forall q :: q in w <==> q in s && OnOrBefore(WindowStart(last, period), q.date) && OnOrBefore(q.date, last)
    ensures w == Window(s, last, period)
  {
    IncreasingUnique(w, Window(s, last, period));
  }

  /** A trading date resolves to itself. */
  lemma NextTradeDayOfTradeDate(s: seq<Quote>, k: nat)
    requires WellFormed(s) && k < |s|
    ensures NextTradeDay(s, s[k].date) == Ok(k)
  {
  }

  /** The resolved row is the earliest row on or after `d`, so its date is the least such date. */
  lemma NextTradeDayIsLeast(s: seq<Quote>, d: Date, j: nat)
    requires WellFormed(s) && j < |s| && OnOrBefore(d, s[j].date)
    ensures NextTradeDay(s, d).Ok?
    ensures NextTradeDay(s, d).value <= j
    ensures OnOrBefore(s[NextTradeDay(s, d).value].date, s[j].date)
  {
  }

  /** Later dates never resolve to earlier rows. */
  lemma NextTradeDayMonotone(s: seq<Quote>, d1: Date, d2: Date)
    requires WellFormed(s) && OnOrBefore(d1, d2) && NextTradeDay(s, d2).Ok?
    ensures NextTradeDay(s, d1).Ok? && NextTradeDay(s, d1).value <= NextTradeDay(s, d2).value
  {
    NextTradeDayIsLeast(s, d1, NextTradeDay(s, d2).value);
  }

  /** A date after the last row has no trading day. */
  lemma NextTradeDayAfterEnd(s: seq<Quote>, d: Date)
    requires WellFormed(s) && s != [] && Before(s[|s| - 1].date, d)
    ensures NextTradeDay(s, d) == Err(DateNotFound)
  {
  }

  /** The closes lie between bounds, so their sum lies between the bounds times the count. */
  lemma {:induction false} SumClosesBounds(w: seq<Quote>, lo: real, hi: real)
    requires forall i :: 0 <= i < |w| ==> lo <= w[i].close <= hi
    ensures lo * (|w| as real) <= SumCloses(w) <= hi * (|w| as real)
  {
    if w != [] {
      var rest := w[1..];
      assert forall i :: 0 <= i < |rest| ==> rest[i] == w[i + 1];
      SumClosesBounds(rest, lo, hi);
      var n := |rest| as real;
      assert |w| as real == n + 1.0;
      assert SumCloses(w) == w[0].close + SumCloses(rest);
      assert lo <= w[0].close <= hi;
      MulSucc(lo, n);
      MulSucc(hi, n);
      assert lo * (|w| as real) == lo * n + lo;
      assert hi * (|w| as real) == hi * n + hi;
    }
  }

  lemma MulSucc(a: real, n: real)
    ensures a * (n + 1.0) == a * n + a
  {
  }

  /** A mean lies between any bounds of the values averaged. */
  lemma MeanBounds(w: seq<Quote>, lo: real, hi: real)
    requires w != []
    requires forall q :: q in w ==> lo <= q.close <= hi
    ensures lo <= Mean(w).value <= hi
  {
    var n := |w| as real;
    var m := Mean(w).value;
    assert forall i :: 0 <= i < |w| ==> w[i] in w;
    SumClosesBounds(w, lo, hi);
    var total := SumCloses(w);
    assert m * n == total;
    assert lo * n <= total && total <= hi * n;
    BetweenScaled(m, lo, hi, n, total);
  }

  /** Dividing bounds on a total by a positive count bounds the quotient. */
  lemma BetweenScaled(m: real, lo: real, hi: real, n: real, total: real)
    requires n > 0.0 && m * n == total && lo * n <= total <= hi * n
    ensures lo <= m <= hi
  {
    ScaleOrder(m, lo, n);
    ScaleOrder(hi, m, n);
  }

  lemma ScaleOrder(a: real, b: real, n: real)
    requires n > 0.0 && b * n <= a * n
    ensures b <= a
  {
  }

  /** The moving average lies between the lowest and highest close in its window. */
  lemma MovingAvgBounds(s: seq<Quote>, last: Date, period: int, lo: real, hi: real)
    requires Valid(last) && MovingAvg(s, last, period).Ok?
    requires forall q :: q in Window(s, last, period) ==> lo <= q.close <= hi
    ensures lo <= MovingAvg(s, last, period).value <= hi
  {
    MeanBounds(Window(s, last, period), lo, hi);
  }

  /** A window whose closes are all `c` averages to `c`. */
  lemma MovingAvgConstant(s: seq<Quote>, last: Date, period: int, c: real)
    requires Valid(last) && MovingAvg(s, last, period).Ok?
    requires forall q :: q in Window(s, last, period) ==> q.close == c
    ensures MovingAvg(s, last, period).value == c
  {
    MovingAvgBounds(s, last, period, c, c);
  }

  /** At a trading date with a non-negative period the window holds that row, so the mean exists. */
  lemma MovingAvgAtTradeDate(s: seq<Quote>, k: nat, period: int)
    requires WellFormed(s) && k < |s| && period >= 0
    requires InRange(WindowStart(s[k].date, period))
    ensures s[k] in Window(s, s[k].date, period)
    ensures MovingAvg(s, s[k].date, period).Ok?
  {
    AddDaysDirection(s[k].date, -period);
  }
}
