/**
 * The integer and pricing rules both company ledgers apply to one company:
 * the float bookkeeping of a buy or a sell, the repricing that follows it,
 * and the percentage events. They are stated on values (StockState); the
 * ledgers' classes apply them to a Company object in place.
 *
 * Every random draw of the source is a parameter; its range is a
 * precondition of the ledger methods that take it.
 */
module PriceRules {
  import opened Common

  /** The mutable part of a company together with its fixed float. */
  datatype StockState = StockState(stockPrice: real, totalStocks: Int32, availableStocks: Int32)

  /** A price the ledger writes after any repricing: a whole number of yen, at least 1. */
  predicate IsListedPrice(p: real)
  {
    p == p.Floor as real && p >= 1.0
  }

  /** The float invariant a new company starts with: at most the total is free, and none is negative unless the total is. */
  predicate FloatConsistent(s: StockState)
  {
    s.availableStocks <= s.totalStocks && (s.totalStocks >= 0 ==> s.availableStocks >= 0)
  }

  /** `Random.nextDouble(0.95, 1.05)`. */
  predicate IsMarketNoise(x: real) { 0.95 <= x < 1.05 }

  /** `Random.nextDouble(-0.01, 0.01)`, before `1.0 +` is added. */
  predicate IsTrendDraw(x: real) { -0.01 <= x < 0.01 }

  /** `Random.nextDouble(-0.02, 0.02)`, the percentage of a small event. */
  predicate IsSmallEventDraw(x: real) { -0.02 <= x < 0.02 }

  /** `x.coerceAtLeast(1.0).toInt().toDouble()`. */
  function ClampThenTruncate(x: real): (p: real)
    ensures IsListedPrice(p)
    ensures x >= 1.0 ==> p <= x < p + 1.0
    ensures x < 2.0 ==> p == 1.0
  {
    Trunc(if x < 1.0 then 1.0 else x) as real
  }

  /** `x.toInt().coerceAtLeast(1).toDouble()`, the order MarketManager uses. */
  function TruncateThenClamp(x: real): (p: real)
    ensures IsListedPrice(p)
    ensures x >= 1.0 ==> p <= x < p + 1.0
    ensures x < 2.0 ==> p == 1.0
  {
    var t := Trunc(x);
    (if t < 1 then 1 else t) as real
  }

  /** Clamping at 1 before or after truncation gives the same price. */
  lemma ClampOrderIrrelevant(x: real)
    ensures ClampThenTruncate(x) == TruncateThenClamp(x)
  {
  }

  /** `1.0 + scarcityRatio * 0.01` with scarcityRatio = (total - available) / total. */
  function ScarcityMultiplier(s: StockState): (m: real)
    requires s.totalStocks > 0
    ensures 0 <= s.availableStocks <= s.totalStocks ==> m >= 1.0
  {
    var ratio := SubInt(s.totalStocks, s.availableStocks) as real / s.totalStocks as real;
    assert 0 <= s.availableStocks <= s.totalStocks ==> ratio >= 0.0 by {
      if 0 <= s.availableStocks <= s.totalStocks {
        QuotientNonNegative(SubInt(s.totalStocks, s.availableStocks) as real, s.totalStocks as real);
      }
    }
    1.0 + ratio * 0.01
  }

  /**
   * The demand/supply effect for a change in available stocks. Buys pass
   * +qty, sells pass -qty; the second branch multiplies a negative ratio by
   * -0.1, so both branches give 1 + |change| / total * 0.1.
   */
  function DemandSupplyEffect(change: int, total: int): (f: real)
    requires total > 0
    ensures f == 1.0 + ((if change >= 0 then change else -change) as real / total as real) * 0.1
    ensures f >= 1.0
    ensures change != 0 ==> f > 1.0
  {
    QuotientNonNegative((if change >= 0 then change else -change) as real, total as real);
    if change >= 0 then
      QuotientPositive(change as real, total as real);
      1.0 + (change as real / total as real) * 0.1
    else
      QuotientOfNegation(change as real, total as real);
      QuotientPositive(-change as real, total as real);
      1.0 + (change as real / total as real) * -0.1
  }

  lemma QuotientNonNegative(a: real, b: real)
    requires a >= 0.0 && b > 0.0
    ensures a / b >= 0.0
  {
  }

  lemma QuotientPositive(a: real, b: real)
    requires b > 0.0
    ensures a > 0.0 ==> a / b > 0.0
  {
  }

  lemma QuotientOfNegation(a: real, b: real)
    requires b != 0.0
    ensures (-a) / b == -(a / b)
  {
  }

  lemma ProductAtLeastOne(a: real, b: real)
    requires a >= 1.0 && b >= 1.0
    ensures a * b >= 1.0
  {
    assert a * b - 1.0 == (a - 1.0) * b + (b - 1.0);
    assert (a - 1.0) * b >= 0.0;
  }

  lemma ScaledUp(p: real, m: real)
    requires p >= 0.0 && m >= 1.0
    ensures p * m >= p
  {
    assert p * m - p == p * (m - 1.0);
  }

  /** A sell of qty moves the effect exactly as a buy of qty does. */
  lemma SellEffectEqualsBuyEffect(qty: int, total: int)
    requires total > 0
    ensures DemandSupplyEffect(-qty, total) == DemandSupplyEffect(qty, total)
  {
  }

  /** `updateStockPrices(company, changeInAvailableStocks)`. */
  function Reprice(s: StockState, change: int, noise: real, trendDraw: real): (r: StockState)
    ensures r.totalStocks == s.totalStocks && r.availableStocks == s.availableStocks
    ensures s.totalStocks <= 0 ==> r == s
    ensures s.totalStocks > 0 ==> IsListedPrice(r.stockPrice)
  {
    if s.totalStocks <= 0 then s
    else
      s.(stockPrice := ClampThenTruncate(Drawn(s.stockPrice, Multiplier(s, change), noise, trendDraw)))
  }

  /** `scarcityMultiplier *= demandSupplyEffect`: the deterministic part of a repricing. */
  function Multiplier(s: StockState, change: int): (m: real)
    requires s.totalStocks > 0
    ensures 0 <= s.availableStocks <= s.totalStocks ==> m >= 1.0
  {
    var scarcity := ScarcityMultiplier(s);
    var effect := DemandSupplyEffect(change, s.totalStocks);
    if 0 <= s.availableStocks <= s.totalStocks then
      ProductAtLeastOne(scarcity, effect);
      scarcity * effect
    else scarcity * effect
  }

  /** `stockPrice * scarcityMultiplier * marketNoise * trend` with trend = 1 + trendDraw. */
  function Drawn(price: real, multiplier: real, noise: real, trendDraw: real): real
  {
    price * multiplier * noise * (1.0 + trendDraw)
  }

  /** `buyStock` on a company that was found: the float check, the decrement, then the repricing with +qty. */
  function AfterBuy(s: StockState, qty: Int32, noise: real, trendDraw: real): (r: Option<StockState>)
    ensures r.Some? <==> qty > 0 && s.availableStocks >= qty
    ensures r.Some? ==> r.value.totalStocks == s.totalStocks
    ensures r.Some? ==> r.value.availableStocks == s.availableStocks - qty >= 0
    ensures r.Some? && s.totalStocks > 0 ==> IsListedPrice(r.value.stockPrice)
  {
    if qty <= 0 then None
    else if s.availableStocks >= qty then
      Some(Reprice(s.(availableStocks := s.availableStocks - qty), qty, noise, trendDraw))
    else None
  }

  /** `sellStock` on a company that was found: add back (Int arithmetic), clamp at the total, reprice with -qty. */
  function AfterSell(s: StockState, qty: Int32, noise: real, trendDraw: real): (r: Option<StockState>)
    ensures r.Some? <==> qty > 0
    ensures r.Some? ==> r.value.totalStocks == s.totalStocks && r.value.availableStocks <= s.totalStocks
    ensures r.Some? && s.availableStocks + qty <= INT_MAX ==>
              r.value.availableStocks == if s.availableStocks + qty > s.totalStocks then s.totalStocks else s.availableStocks + qty
    ensures r.Some? && s.totalStocks > 0 ==> IsListedPrice(r.value.stockPrice)
  {
    if qty <= 0 then None
    else
      var added := AddInt(s.availableStocks, qty);
      var clamped := if added > s.totalStocks then s.totalStocks else added;
      Some(Reprice(s.(availableStocks := clamped), -qty, noise, trendDraw))
  }

  /** `applyEvent` / `smallEvent`: scale by (1 + pct), clamp at 1, truncate. The float is untouched. */
  function Rescaled(s: StockState, pct: real): (r: StockState)
    ensures r.totalStocks == s.totalStocks && r.availableStocks == s.availableStocks
    ensures IsListedPrice(r.stockPrice)
  {
    s.(stockPrice := ClampThenTruncate(EventScaled(s.stockPrice, pct)))
  }

  /** `stockPrice * (1 + pct)`, the raw price of an event. */
  function EventScaled(price: real, pct: real): real
  {
    price * (1.0 + pct)
  }

  /** A successful buy keeps the float invariant. */
  lemma BuyKeepsFloatConsistent(s: StockState, qty: Int32, noise: real, trendDraw: real)
    requires FloatConsistent(s) && AfterBuy(s, qty, noise, trendDraw).Some?
    ensures FloatConsistent(AfterBuy(s, qty, noise, trendDraw).value)
  {
  }

  /** A sell keeps the float invariant as long as available + qty fits in an Int. */
  lemma SellKeepsFloatConsistent(s: StockState, qty: Int32, noise: real, trendDraw: real)
    requires FloatConsistent(s) && qty > 0 && s.availableStocks + qty <= INT_MAX
    ensures FloatConsistent(AfterSell(s, qty, noise, trendDraw).value)
  {
  }

  /**
   * A sell whose `availableStocks += qty` overflows Int leaves a negative
   * float behind on a company whose total is not negative.
   */
  lemma SellOverflowBreaksFloat()
    ensures var s := StockState(100.0, 10, 10);
            FloatConsistent(s) && AfterSell(s, INT_MAX, 1.0, 0.0).value.availableStocks < 0
  {
    var s := StockState(100.0, 10, 10);
    assert AddInt(10, INT_MAX) == 10 + INT_MAX - 0x1_0000_0000;
  }

  /** Inventory is exactly reversible: selling what was just bought restores the float. */
  lemma BuyThenSellRestoresFloat(s: StockState, qty: Int32, n1: real, t1: real, n2: real, t2: real)
    requires FloatConsistent(s) && AfterBuy(s, qty, n1, t1).Some?
    ensures AfterSell(AfterBuy(s, qty, n1, t1).value, qty, n2, t2).value.availableStocks == s.availableStocks
  {
  }

  /**
   * With neutral draws (noise 1, no trend) a buy never lowers a listed price:
   * every multiplier is at least 1 and truncation cannot fall below the old
   * whole price.
   */
  lemma NeutralBuyNeverLowersPrice(s: StockState, qty: Int32)
    requires FloatConsistent(s) && s.totalStocks > 0 && IsListedPrice(s.stockPrice)
    requires AfterBuy(s, qty, 1.0, 0.0).Some?
    ensures AfterBuy(s, qty, 1.0, 0.0).value.stockPrice >= s.stockPrice
  {
    var s1 := s.(availableStocks := s.availableStocks - qty);
    NeutralRepriceNeverLowers(s1, qty);
  }

  /**
   * The same holds for a sell: the as-written sell branch raises the
   * demand/supply effect above 1 instead of lowering the price.
   */
  lemma NeutralSellNeverLowersPrice(s: StockState, qty: Int32)
    requires FloatConsistent(s) && s.totalStocks > 0 && IsListedPrice(s.stockPrice)
    requires qty > 0 && s.availableStocks + qty <= INT_MAX
    ensures AfterSell(s, qty, 1.0, 0.0).value.stockPrice >= s.stockPrice
  {
    var added := AddInt(s.availableStocks, qty);
    var clamped := if added > s.totalStocks then s.totalStocks else added;
    NeutralRepriceNeverLowers(s.(availableStocks := clamped), -qty);
  }

  lemma NeutralRepriceNeverLowers(s: StockState, change: int)
    requires s.totalStocks > 0 && 0 <= s.availableStocks <= s.totalStocks && IsListedPrice(s.stockPrice)
    ensures Reprice(s, change, 1.0, 0.0).stockPrice >= s.stockPrice
  {
    var m := Multiplier(s, change);
    var x := Drawn(s.stockPrice, m, 1.0, 0.0);
    assert Reprice(s, change, 1.0, 0.0).stockPrice == ClampThenTruncate(x);
    NeutralDraws(s.stockPrice, m);
    ScaledUp(s.stockPrice, m);
    TruncationKeepsWholeLowerBound(s.stockPrice, x);
  }

  lemma NeutralDraws(p: real, m: real)
    ensures Drawn(p, m, 1.0, 0.0) == p * m
  {
  }

  lemma TruncationKeepsWholeLowerBound(p: real, x: real)
    requires IsListedPrice(p) && x >= p
    ensures ClampThenTruncate(x) >= p
  {
  }

  /** `Random.nextDouble(0.98, 1.02)`, the per-company noise of a market-wide update. */
  predicate IsMarketWideNoise(x: real) { 0.98 <= x < 1.02 }

  /**
   * The market-wide update of one price:
   * `(price * (demandFactor / supplyFactor) * noise).toInt().coerceAtLeast(1)`.
   */
  function MarketRepriced(price: real, demandFactor: real, supplyFactor: real, noise: real): (p: real)
    requires supplyFactor != 0.0
    ensures IsListedPrice(p)
    ensures price * (demandFactor / supplyFactor) * noise >= 1.0 ==>
              p <= price * (demandFactor / supplyFactor) * noise < p + 1.0
  {
    TruncateThenClamp(price * (demandFactor / supplyFactor) * noise)
  }

  /**
   * With the default factors (1.0 / 1.0) a market-wide update moves any
   * price of at least 1 by less than 2%, truncation aside: the new price
   * lies in (0.98 * price - 1, 1.02 * price).
   */
  lemma DefaultMarketMoveIsSmall(price: real, noise: real)
    requires price >= 1.0 && IsMarketWideNoise(noise)
    ensures price * 0.98 - 1.0 < MarketRepriced(price, 1.0, 1.0, noise) < price * 1.02
  {
    NoiseBand(price, noise);
    ClampedWithin(price * noise, price * 0.98, price * 1.02);
    assert price * (1.0 / 1.0) * noise == price * noise;
  }

  /** A whole price clamped from a raw value in [lo, hi) lies in (lo - 1, hi) when hi > 1. */
  lemma ClampedWithin(x: real, lo: real, hi: real)
    requires lo <= x < hi && hi > 1.0
    ensures lo - 1.0 < TruncateThenClamp(x) < hi
  {
  }

  lemma NoiseBand(price: real, noise: real)
    requires price >= 1.0 && IsMarketWideNoise(noise)
    ensures price * 0.98 <= price * noise < price * 1.02
  {
    ProductSign(price, noise - 0.98);
    ProductSign(price, 1.02 - noise);
    assert price * noise - price * 0.98 == price * (noise - 0.98);
    assert price * 1.02 - price * noise == price * (1.02 - noise);
  }

  lemma ProductSign(a: real, b: real)
    requires a >= 1.0 && b >= 0.0
    ensures a * b >= 0.0 && (b > 0.0 ==> a * b > 0.0)
  {
  }
}
