/**
  `adjust_rate` of AIP.py: the multiplier applied to the nominal 1000 of a
  contribution, from a price and a moving-average price, under one of the
  selectors 'linear', 'null', 'log', 'exp' or 'ali'.
*/
module Rates {
  import opened Outcomes

  /** `math.log` and `math.exp`, which the model takes as given rather than defines. */
  datatype Transcendentals = Transcendentals(ln: real -> real, exp: real -> real)

  function Min(a: real, b: real): real {
    if b < a then b else a
  }

  function Max(a: real, b: real): real {
    if b > a then b else a
  }

  /** `percent`: how far the price lies below the moving average, as a fraction of it. */
  function Percent(price: real, maPrice: real): (r: real)
    requires maPrice != 0.0
    ensures r * maPrice == maPrice - price
    ensures price == maPrice <==> r == 0.0
  {
    -(price - maPrice) / maPrice
  }

  /**
    The pre-transform `rate` as the code writes it,
    `min(max(min_rate, 1 + percent), min(1 + percent, max_rate))`. The outer
    `min` always picks its second argument, so the rate is `1 + percent`
    capped at `max_rate`; `min_rate` plays no part.
  */
  function BaseRate(price: real, maPrice: real, minRate: real, maxRate: real): (r: real)
    requires maPrice != 0.0
    ensures r == Min(1.0 + Percent(price, maPrice), maxRate)
    ensures r <= maxRate && r <= 1.0 + Percent(price, maPrice)
  {
    var p := Percent(price, maPrice);
    Min(Max(minRate, 1.0 + p), Min(1.0 + p, maxRate))
  }

  /** The five tiers of the 'ali' selector, driven by `ali_percent = -percent`. */
  function AliTier(aliPercent: real): (r: real)
    ensures r == 0.6 || r == 0.7 || r == 0.8 || r == 0.9 || r == 1.0
    ensures r == 1.0 <==> aliPercent <= 0.0
    ensures r == 0.6 <==> aliPercent > 1.0
  {
    if aliPercent > 1.0 then 0.6
    else if aliPercent >= 0.5 then 0.7
    else if aliPercent >= 0.15 then 0.8
    else if aliPercent > 0.0 then 0.9
    else 1.0
  }

  predicate KnownFunction(selector: string) {
    selector == "linear" || selector == "null" || selector == "log" || selector == "exp" || selector == "ali"
  }

  /**
    `adjust_rate(price, ma_price, selector, min_rate, max_rate)`. The
    percentage is computed before the selector is looked at, so a zero
    moving average fails whatever the selector.
  */
  function AdjustRate(price: real, maPrice: real, selector: string, minRate: real, maxRate: real,
                      t: Transcendentals): (r: Result<real>)
    ensures maPrice == 0.0 ==> r == Err(DivisionByZero)
    ensures maPrice != 0.0 && selector == "linear" ==> r == Ok(Min(1.0 + Percent(price, maPrice), maxRate))
    ensures maPrice != 0.0 && selector == "null" ==> r == Ok(1.0)
    ensures maPrice != 0.0 && selector == "ali" ==> r == Ok(AliTier((price - maPrice) / maPrice))
    ensures maPrice != 0.0 && selector == "log" ==>
      var base := Min(1.0 + Percent(price, maPrice), maxRate);
      r == if base <= 0.0 then Err(MathDomain) else Ok(Max(t.ln(base) + 1.0, 0.0))
    ensures maPrice != 0.0 && selector == "exp" ==> r == Ok(t.exp(Min(1.0 + Percent(price, maPrice), maxRate) - 1.0))
    ensures maPrice != 0.0 && !KnownFunction(selector) ==> r == Err(InvalidFunction)
  {
    if maPrice == 0.0 then Err(DivisionByZero)
    else
      var percent := Percent(price, maPrice);
      var aliPercent := -percent;
      assert aliPercent * maPrice == price - maPrice;
      assert aliPercent == (price - maPrice) / maPrice;
      var rate := BaseRate(price, maPrice, minRate, maxRate);
      if selector == "linear" then Ok(rate)
      else if selector == "null" then Ok(1.0)
      else if selector == "log" then (if rate <= 0.0 then Err(MathDomain) else Ok(Max(t.ln(rate) + 1.0, 0.0)))
      else if selector == "exp" then Ok(t.exp(rate - 1.0))
      else if selector == "ali" then Ok(AliTier(aliPercent))
      else Err(InvalidFunction)
  }

  // ---------------------------------------------------------------- lemmas

  /** The 'ali' multiplier never grows as the price rises further above its average. */
  lemma AliTierMonotone(x: real, y: real)
    requires x <= y
    ensures AliTier(y) <= AliTier(x)
  {
  }

  /** Each boundary value belongs to the tier below it in multiplier: 1 and 0.5 give 0.7, 0.15 gives 0.8. */
  lemma AliTierBoundaries()
    ensures AliTier(1.0) == 0.7 && AliTier(0.5) == 0.7
    ensures AliTier(0.15) == 0.8 && AliTier(0.0) == 1.0
  {
  }

  /** 'null' invests the nominal amount whatever the prices and bounds. */
  lemma NullIsOne(price: real, maPrice: real, minRate: real, maxRate: real, t: Transcendentals)
    requires maPrice != 0.0
    ensures AdjustRate(price, maPrice, "null", minRate, maxRate, t) == Ok(1.0)
  {
  }

  /** `min_rate` changes no outcome of any selector. */
  lemma MinRateIgnored(price: real, maPrice: real, selector: string, a: real, b: real, maxRate: real,
                       t: Transcendentals)
    ensures AdjustRate(price, maPrice, selector, a, maxRate, t) == AdjustRate(price, maPrice, selector, b, maxRate, t)
  {
  }

  /** A witness that the rate is not clamped from below: it can fall under `min_rate`. */
  lemma NotAClamp(t: Transcendentals)
    ensures AdjustRate(2.0, 1.0, "linear", 0.5, 1.5, t) == Ok(0.0)
  {
  }

  /** A larger `max_rate` never lowers a 'linear' multiplier. */
  lemma LinearMonotoneInMaxRate(price: real, maPrice: real, minRate: real, m1: real, m2: real,
                                t: Transcendentals)
    requires maPrice != 0.0 && m1 <= m2
    ensures AdjustRate(price, maPrice, "linear", minRate, m1, t).value
            <= AdjustRate(price, maPrice, "linear", minRate, m2, t).value
  {
  }

  /** At the moving average itself 'linear' gives 1, or `max_rate` when that is below 1. */
  lemma LinearAtAverage(price: real, minRate: real, maxRate: real, t: Transcendentals)
    requires price != 0.0
    ensures AdjustRate(price, price, "linear", minRate, maxRate, t) == Ok(Min(1.0, maxRate))
  {
  }

  /** A 'log' multiplier, when there is one, is never negative. */
  lemma LogNonNegative(price: real, maPrice: real, minRate: real, maxRate: real, t: Transcendentals)
    requires AdjustRate(price, maPrice, "log", minRate, maxRate, t).Ok?
    ensures AdjustRate(price, maPrice, "log", minRate, maxRate, t).value >= 0.0
  {
  }
}
