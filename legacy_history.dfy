/**
 * The in-memory price history (the `HistoryManager` object of package
 * `com.github.rei0925`): a mutable `history` list that `recordSnapshot`
 * appends to, read through pure list pipelines. Loading and saving the
 * JSON file are not modelled.
 */
module LegacyHistory {
  import opened Common
  import opened Ordering
  import opened HistoryRules
  import LegacyCompanyLedger

  class HistoryManager {
    const companyManager: LegacyCompanyLedger.CompanyManager
    var history: seq<StockHistoryEntry>

    constructor (companyManager: LegacyCompanyLedger.CompanyManager, history: seq<StockHistoryEntry>)
      ensures this.companyManager == companyManager && this.history == history
    {
      this.companyManager := companyManager;
      this.history := history;
    }

    /**
     * `recordSnapshot` at clock reading `now`: one entry per company, in
     * list order, sharing the timestamp, with the company's name and price
     * and open/high/low defaulted to the price; earlier entries stay.
     */
    method RecordSnapshot(now: Int64)
      modifies this
      ensures |history| == |old(history)| + |companyManager.companyList|
      ensures history[..|old(history)|] == old(history)
      ensures forall k :: 0 <= k < |companyManager.companyList| ==>
                history[|old(history)| + k]
                  == SnapshotEntry(now, companyManager.companyList[k].name, companyManager.companyList[k].stockPrice)
    {
      var i := 0;
      while i < |companyManager.companyList|
        invariant 0 <= i <= |companyManager.companyList|
        invariant |history| == |old(history)| + i && history[..|old(history)|] == old(history)
        invariant forall k :: 0 <= k < i ==>
                    history[|old(history)| + k]
                      == SnapshotEntry(now, companyManager.companyList[k].name, companyManager.companyList[k].stockPrice)
      {
        var company := companyManager.companyList[i];
        history := history + [SnapshotEntry(now, company.name, company.stockPrice)];
        i := i + 1;
      }
    }

    /** `getHistory`: a copy of the list, entry for entry. */
    function GetHistory(): (r: seq<StockHistoryEntry>)
      reads this
      ensures |r| == |history| && forall k :: 0 <= k < |r| ==> r[k] == history[k]
    {
      history
    }

    /**
     * `getStockHistory(company)`: the entries of that company, in list order,
     * each exactly as often as it is stored.
     */
    function GetStockHistory(company: string): (r: seq<StockHistoryEntry>)
      reads this
      ensures forall k :: 0 <= k < |r| ==> r[k].companyName == company
      ensures forall e :: multiset(r)[e] == if e.companyName == company then multiset(history)[e] else 0
      ensures r == OfCompany(history, company)  // list order: `OfCompanyAppend`
    {
      OfCompanyCounts(history, company);
      OfCompany(history, company)
    }

    /**
     * `getAverageHistory`: one entry per distinct timestamp, in strictly
     * increasing timestamp order, holding the mean of the prices at it.
     */
    function GetAverageHistory(): (r: seq<AverageHistoryEntry>)
      reads this
      ensures StrictlySortedBy(r, AverageTime)
      ensures forall i :: 0 <= i < |r| ==>
                |PricesAt(history, r[i].timestamp)| > 0 && r[i].averagePrice == Mean(PricesAt(history, r[i].timestamp))
      ensures forall k :: 0 <= k < |history| ==> exists i :: 0 <= i < |r| && r[i].timestamp == history[k].timestamp
    {
      AverageHistoryCorrect(history);
      AverageHistory(history)
    }
  }
}
