/**
 * The table-backed price history (package `magufinance.manager`). The
 * `stock_history` table is the sequence `stockHistory`, in insertion order;
 * the auto-increment id column is never read back and is not modelled.
 * Each query's ORDER BY or GROUP step is the pure function it denotes, and
 * the `while (rs.next())` loops copy its rows.
 */
module History {
  import opened Common
  import opened Ordering
  import opened HistoryRules
  import CompanyLedger

  class HistoryManager {
    const companyManager: CompanyLedger.CompanyManager
    var stockHistory: seq<StockHistoryEntry>

    constructor (companyManager: CompanyLedger.CompanyManager, stockHistory: seq<StockHistoryEntry>)
      ensures this.companyManager == companyManager && this.stockHistory == stockHistory
    {
      this.companyManager := companyManager;
      this.stockHistory := stockHistory;
    }

    /**
     * `recordSnapshot` at clock reading `now`: one batch row per company of
     * the list, in list order, all stamped `now`, with open, high and low
     * equal to the current price; the rows already stored stay as they were.
     */
    method RecordSnapshot(now: Int64)
      modifies this
      ensures |stockHistory| == |old(stockHistory)| + |companyManager.companyList|
      ensures stockHistory[..|old(stockHistory)|] == old(stockHistory)
      ensures forall k :: 0 <= k < |companyManager.companyList| ==>
                stockHistory[|old(stockHistory)| + k]
                  == SnapshotEntry(now, companyManager.companyList[k].name, companyManager.companyList[k].stockPrice)
    {
      var snapshot := companyManager.companyList;
      var batch: seq<StockHistoryEntry> := [];
      var i := 0;
      while i < |snapshot|
        invariant 0 <= i <= |snapshot| && |batch| == i
        invariant forall k :: 0 <= k < i ==> batch[k] == SnapshotEntry(now, snapshot[k].name, snapshot[k].stockPrice)
      {
        var company := snapshot[i];
        batch := batch + [StockHistoryEntry(now, company.name, company.stockPrice, company.stockPrice, company.stockPrice, company.stockPrice)];
        i := i + 1;
      }
      stockHistory := stockHistory + batch;
    }

    /** `getHistory`: every stored row, in non-decreasing timestamp order. */
    method GetHistory() returns (list: seq<StockHistoryEntry>)
      ensures SortedBy(list, EntryTime)
      ensures multiset(list) == multiset(stockHistory)
    {
      var rs := SortBy(stockHistory, EntryTime);
      list := [];
      var i := 0;
      while i < |rs|
        invariant 0 <= i <= |rs| && list == rs[..i]
      {
        list := list + [rs[i]];
        i := i + 1;
      }
      assert list == rs by {
        assert rs[..|rs|] == rs;
      }
    }

    /**
     * `getStockHistory(company)`: exactly the rows whose companyName is
     * `company`, each as often as it is stored, in non-decreasing timestamp
     * order.
     */
    method GetStockHistory(company: string) returns (list: seq<StockHistoryEntry>)
      ensures SortedBy(list, EntryTime)
      ensures forall e :: multiset(list)[e] == if e.companyName == company then multiset(stockHistory)[e] else 0
    {
      var rs := SortBy(OfCompany(stockHistory, company), EntryTime);
      list := [];
      var i := 0;
      while i < |rs|
        invariant 0 <= i <= |rs| && list == rs[..i]
      {
        list := list + [rs[i]];
        i := i + 1;
      }
      assert list == rs by {
        assert rs[..|rs|] == rs;
      }
      OfCompanyCounts(stockHistory, company);
    }

    /**
     * `getAverageHistory`: the rows are read in table order into a map from
     * timestamp to its prices; the result has one entry per distinct
     * timestamp, strictly increasing, each holding the mean of every price
     * recorded at that timestamp.
     */
    method GetAverageHistory() returns (r: seq<AverageHistoryEntry>)
      ensures r == AverageHistory(stockHistory)
      ensures StrictlySortedBy(r, AverageTime)
      ensures forall i :: 0 <= i < |r| ==>
                |PricesAt(stockHistory, r[i].timestamp)| > 0
                && r[i].averagePrice == Mean(PricesAt(stockHistory, r[i].timestamp))
      ensures forall k :: 0 <= k < |stockHistory| ==> exists i :: 0 <= i < |r| && r[i].timestamp == stockHistory[k].timestamp
    {
      var rows := stockHistory;
      var groups: Groups := [];
      var i := 0;
      while i < |rows|
        invariant 0 <= i <= |rows|
        invariant groups == GroupByTime(rows[..i])
      {
        var ts, price := rows[i].timestamp, rows[i].stockPrice;
        assert rows[..i + 1][..i] == rows[..i];
        match FirstIndex(groups, (p: (Int64, seq<real>)) => p.0 == ts) {
          case Some(j) =>
            groups := groups[j := (ts, groups[j].1 + [price])];
          case None =>
            groups := groups + [(ts, [price])];
        }
        i := i + 1;
      }
      assert rows[..|rows|] == rows;
      GroupByTimeGroups(rows);
      r := SortBy(Averages(groups), AverageTime);
      assert r == AverageHistory(rows);
      AverageHistoryCorrect(rows);
    }
  }
}
