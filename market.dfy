/**
 * `MarketManager.updateStockPrices` of the table-backed ledger: one pass over
 * `companyList` that rewrites every price and nothing else.
 */
module Market {
  import opened Common
  import opened PriceRules
  import CompanyLedger

  class MarketManager {
    const companyManager: CompanyLedger.CompanyManager

    constructor (companyManager: CompanyLedger.CompanyManager)
      ensures this.companyManager == companyManager
    {
      this.companyManager := companyManager;
    }

    /**
     * `updateStockPrices(demandFactor, supplyFactor)`. `noises[k]` is the
     * draw for the k-th company; the Kotlin defaults are 1.0 and 1.0.
     */
    method UpdateStockPrices(demandFactor: real, supplyFactor: real, noises: seq<real>)
      requires companyManager.Valid() && supplyFactor != 0.0
      requires |noises| == |companyManager.companyList|
      requires forall k :: 0 <= k < |noises| ==> IsMarketWideNoise(noises[k])
      modifies companyManager.companyList
      ensures companyManager.companyList == old(companyManager.companyList)
      ensures forall k :: 0 <= k < |companyManager.companyList| ==>
                var c := companyManager.companyList[k];
                c.stockPrice == MarketRepriced(old(c.stockPrice), demandFactor, supplyFactor, noises[k])
                && c.availableStocks == old(c.availableStocks)
    {
      var cs := companyManager.companyList;
      var i := 0;
      while i < |cs|
        invariant 0 <= i <= |cs|
        invariant forall k :: 0 <= k < i ==>
                    cs[k].stockPrice == MarketRepriced(old(cs[k].stockPrice), demandFactor, supplyFactor, noises[k])
                    && cs[k].availableStocks == old(cs[k].availableStocks)
        invariant forall k :: i <= k < |cs| ==> cs[k].stockPrice == old(cs[k].stockPrice) && cs[k].availableStocks == old(cs[k].availableStocks)
      {
        var company := cs[i];
        company.stockPrice := MarketRepriced(company.stockPrice, demandFactor, supplyFactor, noises[i]);
        i := i + 1;
      }
    }
  }
}
