/**
 * The older, file-backed company ledger (package `com.github.rei0925`).
 * Companies carry no id; the list is kept in company.json, rewritten whole
 * after every mutation, so the file always equals `companyList`. The
 * pricing rules are those of PriceRules.
 */
module LegacyCompanyLedger {
  import opened Common
  import opened PriceRules

  /** One object of company.json. */
  datatype CompanyRow = CompanyRow(name: string, stockPrice: real, totalStocks: Int32, availableStocks: Int32)

  /** `data class Company`: name and total are `val`, price and float are `var`. */
  class Company {
    const name: string
    var stockPrice: real
    const totalStocks: Int32
    var availableStocks: Int32

    constructor (name: string, stockPrice: real, totalStocks: Int32, availableStocks: Int32)
      ensures this.name == name && this.totalStocks == totalStocks
      ensures this.stockPrice == stockPrice && this.availableStocks == availableStocks
    {
      this.name := name;
      this.stockPrice := stockPrice;
      this.totalStocks := totalStocks;
      this.availableStocks := availableStocks;
    }

    /** The value the pricing rules act on. */
    function State(): StockState
      reads this
    {
      StockState(stockPrice, totalStocks, availableStocks)
    }

    /** The price update `applyEvent` and `smallEvent` share: scale by (1 + pct), clamp at 1, truncate. */
    method Rescale(pct: real)
      modifies this
      ensures State() == Rescaled(old(State()), pct)
    {
      stockPrice := ClampThenTruncate(EventScaled(stockPrice, pct));
    }

    function Row(): CompanyRow
      reads this
    {
      CompanyRow(name, stockPrice, totalStocks, availableStocks)
    }
  }

  class CompanyManager {
    var companyList: seq<Company>

    /** The list never holds one Company object twice: each comes from `new` in createCompany or from decoding company.json. */
    ghost predicate Valid()
      reads this
    {
      forall i, j :: 0 <= i < j < |companyList| ==> companyList[i] != companyList[j]
    }

    /** `init`: company.json is decoded into the list. */
    constructor (rows: seq<CompanyRow>)
      ensures Valid()
      ensures |companyList| == |rows|
      ensures forall k :: 0 <= k < |rows| ==> fresh(companyList[k]) && companyList[k].Row() == rows[k]
    {
      companyList := [];
      new;
      LoadCompanies(rows);
    }

    /** `loadCompanies`: clears the list and adds one fresh Company per decoded JSON object, in file order. */
    method LoadCompanies(rows: seq<CompanyRow>)
      modifies this
      ensures Valid()
      ensures |companyList| == |rows|
      ensures forall k :: 0 <= k < |rows| ==> fresh(companyList[k]) && companyList[k].Row() == rows[k]
    {
      companyList := [];
      var i := 0;
      while i < |rows|
        invariant 0 <= i <= |rows| && |companyList| == i
        invariant forall k :: 0 <= k < i ==> fresh(companyList[k]) && companyList[k].Row() == rows[k]
        invariant Valid()
      {
        var r := rows[i];
        var c := new Company(r.name, r.stockPrice, r.totalStocks, r.availableStocks);
        companyList := companyList + [c];
        i := i + 1;
      }
    }

    /** `createCompany`: a fresh company with its whole float available, appended at the end; nothing else changes. */
    method CreateCompany(name: string, stockPrice: real, totalStocks: Int32)
      requires Valid()
      modifies this
      ensures Valid()
      ensures |companyList| == |old(companyList)| + 1 && companyList[..|old(companyList)|] == old(companyList)
      ensures var c := companyList[|old(companyList)|];
              fresh(c) && c.name == name && c.stockPrice == stockPrice
              && c.totalStocks == totalStocks && c.availableStocks == totalStocks && FloatConsistent(c.State())
    {
      var newCompany := new Company(name, stockPrice, totalStocks, totalStocks);
      companyList := companyList + [newCompany];
    }

    /** `companyList.find { it.name == companyName }`, the lookup every operation starts with. */
    function GetCompany(companyName: string): (r: Option<Company>)
      reads this
      ensures r.Some? ==> r.value in companyList && r.value.name == companyName
      ensures r.None? <==> forall k :: 0 <= k < |companyList| ==> companyList[k].name != companyName
    {
      match FirstIndex(companyList, (c: Company) => c.name == companyName)
      case None => None
      case Some(k) => Some(companyList[k])
    }

    /** What `buyStock` makes of the named company: None when it refuses. */
    function BuyOutcome(companyName: string, qty: Int32, noise: real, trendDraw: real): (r: Option<StockState>)
      reads this, companyList
      ensures r.Some? <==> GetCompany(companyName).Some? && qty > 0 && GetCompany(companyName).value.availableStocks >= qty
    {
      match GetCompany(companyName)
      case None => None
      case Some(c) => AfterBuy(c.State(), qty, noise, trendDraw)
    }

    /** What `sellStock` makes of the named company: None when it refuses. */
    function SellOutcome(companyName: string, qty: Int32, noise: real, trendDraw: real): (r: Option<StockState>)
      reads this, companyList
      ensures r.Some? <==> GetCompany(companyName).Some? && qty > 0
    {
      match GetCompany(companyName)
      case None => None
      case Some(c) => AfterSell(c.State(), qty, noise, trendDraw)
    }

    /**
     * The list is the same list of objects; the company `getCompany(name)`
     * found takes the state `next` when there is one, and every other
     * company (all of them when `next` is None) is unchanged.
     */
    twostate predicate Traded(companyName: string, next: Option<StockState>)
      reads this, companyList
    {
      companyList == old(companyList)
      && (next.Some? ==> old(GetCompany(companyName)).Some? && old(GetCompany(companyName)).value.State() == next.value)
      && (forall c :: c in companyList && !(next.Some? && old(GetCompany(companyName)) == Some(c)) ==> unchanged(c))
    }

    /** `updateStockPrices(company, change)` applied to the object in place. */
    method UpdateStockPrices(company: Company, change: int, noise: real, trendDraw: real)
      modifies company
      ensures company.State() == Reprice(old(company.State()), change, noise, trendDraw)
    {
      if company.totalStocks <= 0 {
        return;
      }
      ghost var before := company.State();
      var scarcityMultiplier := ScarcityMultiplier(company.State());
      scarcityMultiplier := scarcityMultiplier * DemandSupplyEffect(change, company.totalStocks);
      assert scarcityMultiplier == Multiplier(before, change);
      var newPrice := Drawn(company.stockPrice, scarcityMultiplier, noise, trendDraw);
      company.stockPrice := ClampThenTruncate(newPrice);
      assert company.State() == Reprice(before, change, noise, trendDraw);
    }

    /** `buyStock`: unknown name, non-positive qty or too small a float give false and change nothing. */
    method BuyStock(companyName: string, qty: Int32, noise: real, trendDraw: real) returns (ok: bool)
      requires Valid() && IsMarketNoise(noise) && IsTrendDraw(trendDraw)
      modifies companyList
      ensures ok <==> old(BuyOutcome(companyName, qty, noise, trendDraw)).Some?
      ensures Traded(companyName, old(BuyOutcome(companyName, qty, noise, trendDraw)))
    {
      var found := GetCompany(companyName);
      if found.None? {
        return false;
      }
      var company := found.value;
      if qty <= 0 {
        return false;
      }
      if company.availableStocks >= qty {
        company.availableStocks := company.availableStocks - qty;
        UpdateStockPrices(company, qty, noise, trendDraw);
        return true;
      } else {
        return false;
      }
    }

    /** `sellStock`: for a known name and qty > 0 the float grows by qty (clamped at the total) and the price is recomputed. */
    method SellStock(companyName: string, qty: Int32, noise: real, trendDraw: real) returns (ok: bool)
      requires Valid() && IsMarketNoise(noise) && IsTrendDraw(trendDraw)
      modifies companyList
      ensures ok <==> GetCompany(companyName).Some? && qty > 0
      ensures Traded(companyName, old(SellOutcome(companyName, qty, noise, trendDraw)))
    {
      var found := GetCompany(companyName);
      if found.None? {
        return false;
      }
      var company := found.value;
      if qty <= 0 {
        return false;
      }
      company.availableStocks := AddInt(company.availableStocks, qty);
      if company.availableStocks > company.totalStocks {
        company.availableStocks := company.totalStocks;
      }
      UpdateStockPrices(company, -qty, noise, trendDraw);
      return true;
    }

    /** `applyEvent`: an unknown name changes nothing; otherwise the price becomes max(price * (1 + pct), 1) truncated. */
    method ApplyEvent(companyName: string, percentageChange: real)
      requires Valid()
      modifies companyList
      ensures companyList == old(companyList)
      ensures GetCompany(companyName).Some? ==>
                GetCompany(companyName).value.State() == Rescaled(old(GetCompany(companyName).value.State()), percentageChange)
      ensures forall c :: c in companyList && GetCompany(companyName) != Some(c) ==> unchanged(c)
    {
      var found := GetCompany(companyName);
      if found.None? {
        return;
      }
      found.value.Rescale(percentageChange);
    }

    /**
     * `smallEvent`: on a non-empty list, the company at the drawn index
     * `Random.nextInt(size)` is rescaled by the drawn percentage; nothing else
     * changes. An empty list is left alone.
     */
    method SmallEvent(index: nat, percent: real)
      requires Valid() && IsSmallEventDraw(percent)
      requires |companyList| > 0 ==> index < |companyList|
      modifies companyList
      ensures companyList == old(companyList)
      ensures |companyList| > 0 ==> companyList[index].State() == Rescaled(old(companyList[index].State()), percent)
      ensures forall k :: 0 <= k < |companyList| && k != index ==> unchanged(companyList[k])
    {
      if |companyList| == 0 {
        return;
      }
      companyList[index].Rescale(percent);
    }
  }
}
