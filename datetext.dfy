/**
  The date strings AIP.py passes around: `str(date)` gives 'YYYY-MM-DD',
  `str(Timestamp)` gives 'YYYY-MM-DD 00:00:00', and every date-taking
  function reads its argument back with `int(s[:4])`, `int(s[5:7])`,
  `int(s[8:10])`. The loop of `fit` compares two such strings with Python's
  `<=`, which is lexicographic order on code points.
*/
module DateText {
  import opened Calendar
  import opened Outcomes

  function DigitChar(k: int): char
    requires 0 <= k <= 9
  {
    (48 + k) as char
  }

  predicate IsDigit(c: char) {
    '0' <= c <= '9'
  }

  function Pow10(w: nat): (p: nat)
    ensures p >= 1
  {
    if w == 0 then 1 else 10 * Pow10(w - 1)
  }

  /** `n` written with exactly `w` decimal digits, zero-padded on the left (`%0wd`). */
  function Digits(n: nat, w: nat): (s: string)
    ensures |s| == w
    ensures forall i :: 0 <= i < |s| ==> IsDigit(s[i])
  {
    if w == 0 then [] else Digits(n / 10, w - 1) + [DigitChar(n % 10)]
  }

  /** The value of a string of decimal digits. */
  function DigitsValue(s: string): nat
    requires forall i :: 0 <= i < |s| ==> IsDigit(s[i])
  {
    if s == [] then 0
    else
      assert IsDigit(s[|s| - 1]);
      DigitsValue(s[..|s| - 1]) * 10 + ((s[|s| - 1] as int) - 48)
  }

  /** `int(t)` for the strings the program produces: a non-empty run of decimal digits. */
  function ParseNat(t: string): (r: Option<nat>)
    ensures r.Some? <==> t != [] && forall i :: 0 <= i < |t| ==> IsDigit(t[i])
  {
    if t != [] && forall i :: 0 <= i < |t| ==> IsDigit(t[i]) then Some(DigitsValue(t)) else None
  }

  /** Python's `s[i:j]` for 0 <= i <= j: indices past the end are cut back to the length. */
  function Slice(s: string, i: nat, j: nat): (t: string)
    requires i <= j
    ensures |t| <= j - i
  {
    var hi := if j <= |s| then j else |s|;
    var lo := if i <= hi then i else hi;
    s[lo..hi]
  }

  /** `str(d)` for a `datetime.date`. */
  function DateString(d: Date): (s: string)
    requires Valid(d) && InRange(d)
    ensures |s| == 10
  {
    Digits(d.year, 4) + ("-" + (Digits(d.month, 2) + ("-" + Digits(d.day, 2))))
  }

  /** `str(t)` for a pandas `Timestamp` at midnight, as `next_trade_day` returns it. */
  function TimestampString(d: Date): (s: string)
    requires Valid(d) && InRange(d)
    ensures |s| == 19
  {
    DateString(d) + " 00:00:00"
  }

  /** `date(int(s[:4]), int(s[5:7]), int(s[8:10]))`, failing as Python's `int` or `date` would. */
  function Parse(s: string): (r: Result<Date>)
    ensures r.Ok? ==> Valid(r.value) && InRange(r.value)
    ensures r.Err? ==> r.error == InvalidDate
  {
    var y, m, d := ParseNat(Slice(s, 0, 4)), ParseNat(Slice(s, 5, 7)), ParseNat(Slice(s, 8, 10));
    if y.Some? && m.Some? && d.Some? && Valid(Date(y.value, m.value, d.value)) && InRange(Date(y.value, m.value, d.value))
    then Ok(Date(y.value, m.value, d.value))
    else Err(InvalidDate)
  }

  /** Python's `a < b` on strings. */
  predicate LexLess(a: string, b: string) {
    if a == [] then b != []
    else if b == [] then false
    else a[0] < b[0] || (a[0] == b[0] && LexLess(a[1..], b[1..]))
  }

  /** Python's `a <= b` on strings. */
  predicate LexLessEq(a: string, b: string) {
    LexLess(a, b) || a == b
  }

  // ---------------------------------------------------------------- lemmas

  lemma {:induction false} DigitsValueOfDigits(n: nat, w: nat)
    requires n < Pow10(w)
    ensures DigitsValue(Digits(n, w)) == n
  {
    if w > 0 {
      var p, c := Digits(n / 10, w - 1), DigitChar(n % 10);
      assert Digits(n, w) == p + [c];
      DigitsValueSnoc(p, c);
      assert n / 10 < Pow10(w - 1) by {
        assert Pow10(w) == 10 * Pow10(w - 1);
      }
      DigitsValueOfDigits(n / 10, w - 1);
    }
  }

  /** Appending a digit multiplies the value by ten and adds the digit. */
  lemma DigitsValueSnoc(p: string, c: char)
    requires forall i :: 0 <= i < |p| ==> IsDigit(p[i])
    requires IsDigit(c)
    ensures DigitsValue(p + [c]) == DigitsValue(p) * 10 + ((c as int) - 48)
  {
    assert (p + [c])[..|p|] == p;
  }

  /** Reading back `str(d)`, or the timestamp string, through the three slices yields `d`. */
  lemma ParseDateString(d: Date)
    requires Valid(d) && InRange(d)
    ensures Parse(DateString(d)) == Ok(d)
    ensures Parse(TimestampString(d)) == Ok(d)
  {
    var s := DateString(d);
    DateStringFields(d);
    ParseFields(s, d);
    SliceOfPrefix(s, " 00:00:00", 0, 4);
    SliceOfPrefix(s, " 00:00:00", 5, 7);
    SliceOfPrefix(s, " 00:00:00", 8, 10);
    ParseFields(s + " 00:00:00", d);
  }

  /** A string whose three slices hold the zero-padded fields of a date parses to that date. */
  lemma ParseFields(s: string, d: Date)
    requires Valid(d) && InRange(d)
    requires Slice(s, 0, 4) == Digits(d.year, 4)
    requires Slice(s, 5, 7) == Digits(d.month, 2)
    requires Slice(s, 8, 10) == Digits(d.day, 2)
    ensures Parse(s) == Ok(d)
  {
    DigitsValueOfDigits(d.year, 4);
    DigitsValueOfDigits(d.month, 2);
    DigitsValueOfDigits(d.day, 2);
    assert ParseNat(Slice(s, 0, 4)) == Some(d.year);
    assert ParseNat(Slice(s, 5, 7)) == Some(d.month);
    assert ParseNat(Slice(s, 8, 10)) == Some(d.day);
  }

  /** Where the year, month and day sit in `str(d)`. */
  lemma DateStringFields(d: Date)
    requires Valid(d) && InRange(d)
    ensures Slice(DateString(d), 0, 4) == Digits(d.year, 4)
    ensures Slice(DateString(d), 5, 7) == Digits(d.month, 2)
    ensures Slice(DateString(d), 8, 10) == Digits(d.day, 2)
  {
    var s, y, m, dd := DateString(d), Digits(d.year, 4), Digits(d.month, 2), Digits(d.day, 2);
    assert s == y + "-" + m + "-" + dd;
    assert s[0..4] == y && s[5..7] == m && s[8..10] == dd;
  }

  /** A slice within `s` does not see what follows `s`. */
  lemma SliceOfPrefix(s: string, x: string, i: nat, j: nat)
    requires i <= j <= |s|
    ensures Slice(s + x, i, j) == Slice(s, i, j) == s[i..j]
  {
    assert (s + x)[i..j] == s[i..j];
  }

  /** Comparing two concatenations whose first parts have equal length. */
  lemma {:induction false} LexLessAppend(a: string, x: string, b: string, y: string)
    requires |a| == |b|
    ensures LexLess(a + x, b + y) <==> LexLess(a, b) || (a == b && LexLess(x, y))
  {
    if a != [] {
      assert (a + x)[1..] == a[1..] + x;
      assert (b + y)[1..] == b[1..] + y;
      LexLessAppend(a[1..], x, b[1..], y);
      if a[0] == b[0] && a[1..] == b[1..] {
        assert a == b;
      }
    } else {
      assert a + x == x && b + y == y;
    }
  }

  /** Zero-padded decimal strings compare like the numbers they denote. */
  lemma {:induction false} DigitsOrder(a: nat, b: nat, w: nat)
    requires a < Pow10(w) && b < Pow10(w)
    ensures LexLess(Digits(a, w), Digits(b, w)) <==> a < b
    ensures Digits(a, w) == Digits(b, w) <==> a == b
  {
    if w > 0 {
      DigitsOrder(a / 10, b / 10, w - 1);
      LexLessAppend(Digits(a / 10, w - 1), [DigitChar(a % 10)], Digits(b / 10, w - 1), [DigitChar(b % 10)]);
      var sa, sb := Digits(a, w), Digits(b, w);
      if sa == sb {
        assert sa[..w - 1] == Digits(a / 10, w - 1) && sb[..w - 1] == Digits(b / 10, w - 1);
        assert sa[w - 1] == DigitChar(a % 10) && sb[w - 1] == DigitChar(b % 10);
      }
    } else {
      assert a == 0 && b == 0;
    }
  }

  /** `str(date)` order is chronological order within the years 1..9999. */
  lemma DateStringOrder(a: Date, b: Date)
    requires Valid(a) && InRange(a) && Valid(b) && InRange(b)
    ensures LexLess(DateString(a), DateString(b)) <==> Before(a, b)
    ensures DateString(a) == DateString(b) <==> a == b
  {
    DigitsOrder(a.year, b.year, 4);
    DigitsOrder(a.month, b.month, 2);
    DigitsOrder(a.day, b.day, 2);
    var ra := "-" + (Digits(a.month, 2) + ("-" + Digits(a.day, 2)));
    var rb := "-" + (Digits(b.month, 2) + ("-" + Digits(b.day, 2)));
    LexLessAppend(Digits(a.year, 4), ra, Digits(b.year, 4), rb);
    LexLessAppend("-", Digits(a.month, 2) + ("-" + Digits(a.day, 2)), "-", Digits(b.month, 2) + ("-" + Digits(b.day, 2)));
    LexLessAppend(Digits(a.month, 2), "-" + Digits(a.day, 2), Digits(b.month, 2), "-" + Digits(b.day, 2));
    LexLessAppend("-", Digits(a.day, 2), "-", Digits(b.day, 2));
    if DateString(a) == DateString(b) {
      assert DateString(a)[..4] == Digits(a.year, 4) && DateString(b)[..4] == Digits(b.year, 4);
      assert DateString(a)[5..7] == Digits(a.month, 2) && DateString(b)[5..7] == Digits(b.month, 2);
      assert DateString(a)[8..] == Digits(a.day, 2) && DateString(b)[8..] == Digits(b.day, 2);
    }
  }

  /**
    The loop test of `fit`, `next_trade_date <= end_date`, compares a
    timestamp string with a date string: it holds exactly when the trade
    date is STRICTLY before the end date (equal dates fail, because the
    longer timestamp string sorts after its own date prefix).
  */
  lemma EndTestIsStrict(trade: Date, end: Date)
    requires Valid(trade) && InRange(trade) && Valid(end) && InRange(end)
    ensures LexLessEq(TimestampString(trade), DateString(end)) <==> Before(trade, end)
  {
    DateStringOrder(trade, end);
    LexLessAppend(DateString(trade), " 00:00:00", DateString(end), []);
    assert DateString(end) + [] == DateString(end);
  }
}
