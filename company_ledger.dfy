/**
 * The table-backed company ledger (package `magufinance.manager`). The
 * `companies` table is represented by the in-memory `companyList` the
 * manager keeps; every mutation of the source ends in `save()`, an upsert
 * of the whole list keyed by the primary `id` and the unique `name`, which leaves the table
 * equal to the list when the names are distinct (a repeated name
 * overwrites the older row).
 */
module CompanyLedger {
  import opened Common
  import opened PriceRules

  /** One row of the `companies` table, as `loadCompanies` reads it. */
  datatype CompanyRow = CompanyRow(id: Int32, name: string, stockPrice: real, totalStocks: Int32, availableStocks: Int32)

  /** `data class Company`: id, name and total are `val`, price and float are `var`. */
  class Company {
    const id: Int32
    const name: string
    var stockPrice: real
    const totalStocks: Int32
    var availableStocks: Int32

    constructor (id: Int32, name: string, stockPrice: real, totalStocks: Int32, availableStocks: Int32)
      ensures this.id == id && this.name == name && this.totalStocks == totalStocks
      ensures this.stockPrice == stockPrice && this.availableStocks == availableStocks
    {
      this.id := id;
      this.name := name;
      this.stockPrice := stockPrice;
      this.totalStocks := totalStocks;
      this.availableStocks := availableStocks;
    }

    /** The value the pricing rules act on. */
    function State(): StockState
      reads this
    {
      StockState(stockPrice, totalStocks, availableStocks)
    }

    /** The price update `applyEvent` and `smallEvent` share: scale by (1 + pct), clamp at 1, truncate. */
    method Rescale(pct: real)
      modifies this
      ensures State() == Rescaled(old(State()), pct)
    {
      stockPrice := ClampThenTruncate(EventScaled(stockPrice, pct));
    }

    function Row(): CompanyRow
      reads this
    {
      CompanyRow(id, name, stockPrice, totalStocks, availableStocks)
    }
  }

  /** The largest id, as `maxOfOrNull { it.id }` computes it on a non-empty list. */
  function MaxId(cs: seq<Company>): (m: Int32)
    requires |cs| > 0
    ensures forall k :: 0 <= k < |cs| ==> cs[k].id <= m
    ensures exists k :: 0 <= k < |cs| && cs[k].id == m
  {
    if |cs| == 1 then cs[0].id
    else
      var rest := MaxId(cs[1..]);
      assert forall k :: 1 <= k < |cs| ==> cs[k] == cs[1..][k - 1];
      if cs[0].id >= rest then cs[0].id else rest
  }

  /** `(companyList.maxOfOrNull { it.id } ?: 0) + 1`, in Int arithmetic. */
  function NextId(cs: seq<Company>): (r: Int32)
    ensures |cs| == 0 ==> r == 1
    ensures |cs| > 0 && MaxId(cs) < INT_MAX ==> r == MaxId(cs) + 1
  {
    AddInt(if |cs| == 0 then 0 else MaxId(cs), 1)
  }

  /** Unless the largest id is Int.MAX_VALUE, the next id is new. */
  lemma NextIdIsFresh(cs: seq<Company>)
    requires |cs| == 0 || MaxId(cs) < INT_MAX
    ensures forall k :: 0 <= k < |cs| ==> cs[k].id != NextId(cs)
  {
  }

  /** No two companies share an id. */
  ghost predicate IdsDistinct(cs: seq<Company>)
  {
    forall i, j :: 0 <= i < j < |cs| ==> cs[i].id != cs[j].id
  }

  class CompanyManager {
    var companyList: seq<Company>

    /** The list never holds one Company object twice: each comes from `new` in createCompany or loadCompanies. */
    ghost predicate Valid()
      reads this
    {
      forall i, j :: 0 <= i < j < |companyList| ==> companyList[i] != companyList[j]
    }

    /** `init`: the table is read into the list. */
    constructor (rows: seq<CompanyRow>)
      ensures Valid()
      ensures |companyList| == |rows|
      ensures forall k :: 0 <= k < |rows| ==> fresh(companyList[k]) && companyList[k].Row() == rows[k]
    {
      companyList := [];
      new;
      LoadCompanies(rows);
    }

    /** `loadCompanies`: clears the list and adds one fresh Company per row, in row order. */
    method LoadCompanies(rows: seq<CompanyRow>)
      modifies this
      ensures Valid()
      ensures |companyList| == |rows|
      ensures forall k :: 0 <= k < |rows| ==> fresh(companyList[k]) && companyList[k].Row() == rows[k]
    {
      companyList := [];
      var i := 0;
      while i < |rows|
        invariant 0 <= i <= |rows| && |companyList| == i
        invariant forall k :: 0 <= k < i ==> fresh(companyList[k]) && companyList[k].Row() == rows[k]
        invariant Valid()
      {
        var r := rows[i];
        var c := new Company(r.id, r.name, r.stockPrice, r.totalStocks, r.availableStocks);
        companyList := companyList + [c];
        i := i + 1;
      }
    }

    /** `createCompany`: a fresh company with id max+1 and its whole float available, appended at the end. */
    method CreateCompany(name: string, stockPrice: real, totalStocks: Int32)
      requires Valid()
      modifies this
      ensures Valid()
      ensures |companyList| == |old(companyList)| + 1 && companyList[..|old(companyList)|] == old(companyList)
      ensures var c := companyList[|old(companyList)|];
              fresh(c) && c.id == NextId(old(companyList)) && c.name == name && c.stockPrice == stockPrice
              && c.totalStocks == totalStocks && c.availableStocks == totalStocks && FloatConsistent(c.State())
      ensures old(IdsDistinct(companyList)) && (|old(companyList)| == 0 || MaxId(old(companyList)) < INT_MAX)
              ==> IdsDistinct(companyList)
    {
      var newId := NextId(companyList);
      if |companyList| == 0 || MaxId(companyList) < INT_MAX {
        NextIdIsFresh(companyList);
      }
      var newCompany := new Company(newId, name, stockPrice, totalStocks, totalStocks);
      companyList := companyList + [newCompany];
    }

    /** `getCompany`: the first company with that name. */
    function GetCompany(companyName: string): (r: Option<Company>)
      reads this
      ensures r.Some? ==> r.value in companyList && r.value.name == companyName
      ensures r.None? <==> forall k :: 0 <= k < |companyList| ==> companyList[k].name != companyName
    {
      match FirstIndex(companyList, (c: Company) => c.name == companyName)
      case None => None
      case Some(k) => Some(companyList[k])
    }

    /** `getCompanyById`: the first company with that id. */
    function GetCompanyById(id: Int32): (r: Option<Company>)
      reads this
      ensures r.Some? ==> r.value in companyList && r.value.id == id
      ensures r.None? <==> forall k :: 0 <= k < |companyList| ==> companyList[k].id != id
    {
      Find(companyList, (c: Company) => c.id == id)
    }

    /** What `buyStock` makes of the named company: None when it refuses. */
    function BuyOutcome(companyName: string, qty: Int32, noise: real, trendDraw: real): (r: Option<StockState>)
      reads this, companyList
      ensures r.Some? <==> GetCompany(companyName).Some? && qty > 0 && GetCompany(companyName).value.availableStocks >= qty
    {
      match GetCompany(companyName)
      case None => None
      case Some(c) => AfterBuy(c.State(), qty, noise, trendDraw)
    }

    /** What `sellStock` makes of the named company: None when it refuses. */
    function SellOutcome(companyName: string, qty: Int32, noise: real, trendDraw: real): (r: Option<StockState>)
      reads this, companyList
      ensures r.Some? <==> GetCompany(companyName).Some? && qty > 0
    {
      match GetCompany(companyName)
      case None => None
      case Some(c) => AfterSell(c.State(), qty, noise, trendDraw)
    }

    /**
     * The list is the same list of objects; the company `getCompany(name)`
     * found takes the state `next` when there is one, and every other
     * company (all of them when `next` is None) is unchanged.
     */
    twostate predicate Traded(companyName: string, next: Option<StockState>)
      reads this, companyList
    {
      companyList == old(companyList)
      && (next.Some? ==> old(GetCompany(companyName)).Some? && old(GetCompany(companyName)).value.State() == next.value)
      && (forall c :: c in companyList && !(next.Some? && old(GetCompany(companyName)) == Some(c)) ==> unchanged(c))
    }

    /** `updateStockPrices(company, change)` applied to the object in place. */
    method UpdateStockPrices(company: Company, change: int, noise: real, trendDraw: real)
      modifies company
      ensures company.State() == Reprice(old(company.State()), change, noise, trendDraw)
    {
      if company.totalStocks <= 0 {
        return;
      }
      ghost var before := company.State();
      var scarcityMultiplier := ScarcityMultiplier(company.State());
      scarcityMultiplier := scarcityMultiplier * DemandSupplyEffect(change, company.totalStocks);
      assert scarcityMultiplier == Multiplier(before, change);
      var newPrice := Drawn(company.stockPrice, scarcityMultiplier, noise, trendDraw);
      company.stockPrice := ClampThenTruncate(newPrice);
      assert company.State() == Reprice(before, change, noise, trendDraw);
    }

    /** `buyStock`: unknown name, non-positive qty or too small a float give false and change nothing. */
    method BuyStock(companyName: string, qty: Int32, noise: real, trendDraw: real) returns (ok: bool)
      requires Valid() && IsMarketNoise(noise) && IsTrendDraw(trendDraw)
      modifies companyList
      ensures ok <==> old(BuyOutcome(companyName, qty, noise, trendDraw)).Some?
      ensures Traded(companyName, old(BuyOutcome(companyName, qty, noise, trendDraw)))
    {
      var found := GetCompany(companyName);
      if found.None? {
        return false;
      }
      var company := found.value;
      if qty <= 0 {
        return false;
      }
      if company.availableStocks >= qty {
        company.availableStocks := company.availableStocks - qty;
        UpdateStockPrices(company, qty, noise, trendDraw);
        return true;
      } else {
        return false;
      }
    }

    /** `sellStock`: for a known name and qty > 0 the float grows by qty (clamped at the total) and the price is recomputed. */
    method SellStock(companyName: string, qty: Int32, noise: real, trendDraw: real) returns (ok: bool)
      requires Valid() && IsMarketNoise(noise) && IsTrendDraw(trendDraw)
      modifies companyList
      ensures ok <==> GetCompany(companyName).Some? && qty > 0
      ensures Traded(companyName, old(SellOutcome(companyName, qty, noise, trendDraw)))
    {
      var found := GetCompany(companyName);
      if found.None? {
        return false;
      }
      var company := found.value;
      if qty <= 0 {
        return false;
      }
      company.availableStocks := AddInt(company.availableStocks, qty);
      if company.availableStocks > company.totalStocks {
        company.availableStocks := company.totalStocks;
      }
      UpdateStockPrices(company, -qty, noise, trendDraw);
      return true;
    }

    /** `applyEvent`: an unknown name changes nothing; otherwise the price becomes max(price * (1 + pct), 1) truncated. */
    method ApplyEvent(companyName: string, percentageChange: real)
      requires Valid()
      modifies companyList
      ensures companyList == old(companyList)
      ensures GetCompany(companyName).Some? ==>
                GetCompany(companyName).value.State() == Rescaled(old(GetCompany(companyName).value.State()), percentageChange)
      ensures forall c :: c in companyList && GetCompany(companyName) != Some(c) ==> unchanged(c)
    {
      var found := GetCompany(companyName);
      if found.None? {
        return;
      }
      found.value.Rescale(percentageChange);
    }

    /**
     * `smallEvent`: on a non-empty list, the company at the drawn index
     * `Random.nextInt(size)` is rescaled by the drawn percentage; nothing else
     * changes. An empty list is left alone.
     */
    method SmallEvent(index: nat, percent: real)
      requires Valid() && IsSmallEventDraw(percent)
      requires |companyList| > 0 ==> index < |companyList|
      modifies companyList
      ensures companyList == old(companyList)
      ensures |companyList| > 0 ==> companyList[index].State() == Rescaled(old(companyList[index].State()), percent)
      ensures forall k :: 0 <= k < |companyList| && k != index ==> unchanged(companyList[k])
    {
      if |companyList| == 0 {
        return;
      }
      companyList[index].Rescale(percent);
    }
  }

  /** `getCompany` returns the FIRST company with the name: none before it in the list matches. */
  lemma GetCompanyIsFirst(m: CompanyManager, companyName: string)
    ensures m.GetCompany(companyName).Some? ==>
              exists k :: 0 <= k < |m.companyList| && m.companyList[k] == m.GetCompany(companyName).value
                && forall j :: 0 <= j < k ==> m.companyList[j].name != companyName
  {
    var i := FirstIndex(m.companyList, (c: Company) => c.name == companyName);
    if i.Some? {
      assert m.companyList[i.value] == m.GetCompany(companyName).value;
    }
  }

  /** While ids are distinct, `getCompanyById` finds the one company carrying the id. */
  lemma GetCompanyByIdIsUnique(m: CompanyManager, id: Int32, k: nat)
    requires IdsDistinct(m.companyList)
    requires k < |m.companyList| && m.companyList[k].id == id
    ensures m.GetCompanyById(id) == Some(m.companyList[k])
  {
    var r := m.GetCompanyById(id);
    var j :| 0 <= j < |m.companyList| && m.companyList[j] == r.value;
    assert j == k;
  }
}
