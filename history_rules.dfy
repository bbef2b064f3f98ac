/**
 * The price-history vocabulary shared by both history managers: the
 * `StockHistoryEntry` and `AverageHistoryEntry` records, the filter by
 * company, the grouping by timestamp and the per-timestamp mean, sorted by
 * timestamp.
 */
module HistoryRules {
  import opened Common
  import opened Ordering

  /** One recorded price; open, high and low are the price unless given. */
  datatype StockHistoryEntry = StockHistoryEntry(
    timestamp: Int64, companyName: string, stockPrice: real,
    openPrice: real, highPrice: real, lowPrice: real)

  datatype AverageHistoryEntry = AverageHistoryEntry(timestamp: Int64, averagePrice: real)

  /** `StockHistoryEntry(timestamp, companyName, stockPrice)` with the defaulted open/high/low. */
  function SnapshotEntry(timestamp: Int64, companyName: string, stockPrice: real): (e: StockHistoryEntry)
    ensures e.timestamp == timestamp && e.companyName == companyName && e.stockPrice == stockPrice
    ensures e.openPrice == e.highPrice == e.lowPrice == stockPrice
  {
    StockHistoryEntry(timestamp, companyName, stockPrice, stockPrice, stockPrice, stockPrice)
  }

  function EntryTime(e: StockHistoryEntry): int { e.timestamp }

  function AverageTime(a: AverageHistoryEntry): int { a.timestamp }

  /** The rows of one company, in table order (`filter { it.companyName == company }`). */
  function OfCompany(h: seq<StockHistoryEntry>, company: string): (r: seq<StockHistoryEntry>)
    ensures forall k :: 0 <= k < |r| ==> r[k].companyName == company
  {
    if |h| == 0 then []
    else OfCompany(h[..|h| - 1], company) + (if h[|h| - 1].companyName == company then [h[|h| - 1]] else [])
  }

  /** Exactly the rows with that name are kept, each as often as it occurs. */
  lemma {:induction false} OfCompanyCounts(h: seq<StockHistoryEntry>, company: string)
    ensures forall e :: multiset(OfCompany(h, company))[e] == if e.companyName == company then multiset(h)[e] else 0
  {
    if |h| > 0 {
      OfCompanyCounts(h[..|h| - 1], company);
      assert h == h[..|h| - 1] + [h[|h| - 1]];
    }
  }

  /** Filtering appended rows filters each part. */
  lemma {:induction false} OfCompanyAppend(h: seq<StockHistoryEntry>, more: seq<StockHistoryEntry>, company: string)
    ensures OfCompany(h + more, company) == OfCompany(h, company) + OfCompany(more, company)
    decreases |more|
  {
    if |more| == 0 {
      assert h + more == h;
    } else {
      var all := h + more;
      assert all[..|all| - 1] == h + more[..|more| - 1];
      assert all[|all| - 1] == more[|more| - 1];
      OfCompanyAppend(h, more[..|more| - 1], company);
    }
  }

  /** The prices recorded at timestamp `ts`, in table order. */
  function PricesAt(h: seq<StockHistoryEntry>, ts: Int64): seq<real>
  {
    if |h| == 0 then []
    else PricesAt(h[..|h| - 1], ts) + (if h[|h| - 1].timestamp == ts then [h[|h| - 1].stockPrice] else [])
  }

  lemma {:induction false} NoPricesAt(h: seq<StockHistoryEntry>, ts: Int64)
    requires forall k :: 0 <= k < |h| ==> h[k].timestamp != ts
    ensures PricesAt(h, ts) == []
  {
    if |h| > 0 {
      NoPricesAt(h[..|h| - 1], ts);
    }
  }

  function Sum(ps: seq<real>): real
  {
    if |ps| == 0 then 0.0 else Sum(ps[..|ps| - 1]) + ps[|ps| - 1]
  }

  /** `prices.average()` on a non-empty list. */
  function Mean(ps: seq<real>): (m: real)
    requires |ps| > 0
    ensures m * |ps| as real == Sum(ps)
  {
    Sum(ps) / |ps| as real
  }

  /** A grouping: timestamps with their price lists, in first-occurrence order (a `LinkedHashMap`). */
  type Groups = seq<(Int64, seq<real>)>

  /** `map.computeIfAbsent(ts) { mutableListOf() }.add(price)`. */
  function AddToGroup(g: Groups, ts: Int64, price: real): (r: Groups)
  {
    match FirstIndex(g, (p: (Int64, seq<real>)) => p.0 == ts)
    case Some(j) => g[j := (ts, g[j].1 + [price])]
    case None => g + [(ts, [price])]
  }

  /** The rows of `h`, one after another, added to an empty grouping (`groupBy { it.timestamp }`). */
  function GroupByTime(h: seq<StockHistoryEntry>): Groups
  {
    if |h| == 0 then [] else AddToGroup(GroupByTime(h[..|h| - 1]), h[|h| - 1].timestamp, h[|h| - 1].stockPrice)
  }

  /** One group per timestamp of `h`, each holding every price recorded at it. */
  ghost predicate GroupsOf(g: Groups, h: seq<StockHistoryEntry>)
  {
    (forall i, j :: 0 <= i < j < |g| ==> g[i].0 != g[j].0)
    && (forall i :: 0 <= i < |g| ==> g[i].1 == PricesAt(h, g[i].0) && |g[i].1| > 0)
    && (forall k :: 0 <= k < |h| ==> exists i :: 0 <= i < |g| && g[i].0 == h[k].timestamp)
  }

  lemma {:induction false} GroupByTimeGroups(h: seq<StockHistoryEntry>)
    ensures GroupsOf(GroupByTime(h), h)
  {
    if |h| > 0 {
      var init := h[..|h| - 1];
      var e := h[|h| - 1];
      GroupByTimeGroups(init);
      AddToGroupStep(GroupByTime(init), init, e);
    }
  }

  /** Adding the next row to the grouping of the rows before it gives the grouping of all of them. */
  lemma AddToGroupStep(g: Groups, init: seq<StockHistoryEntry>, e: StockHistoryEntry)
    requires GroupsOf(g, init)
    ensures GroupsOf(AddToGroup(g, e.timestamp, e.stockPrice), init + [e])
  {
    var h := init + [e];
    assert h[..|h| - 1] == init;
    var r := AddToGroup(g, e.timestamp, e.stockPrice);
    var found := FirstIndex(g, (p: (Int64, seq<real>)) => p.0 == e.timestamp);
    forall i | 0 <= i < |r|
      ensures r[i].1 == PricesAt(h, r[i].0) && |r[i].1| > 0
    {
      assert PricesAt(h, r[i].0) == PricesAt(init, r[i].0) + (if e.timestamp == r[i].0 then [e.stockPrice] else []);
      if found.Some? {
        if i != found.value {
          assert r[i] == g[i];
        }
      } else if i < |g| {
        assert r[i] == g[i];
      } else {
        forall k | 0 <= k < |init|
          ensures init[k].timestamp != e.timestamp
        {
          var j :| 0 <= j < |g| && g[j].0 == init[k].timestamp;
        }
        NoPricesAt(init, e.timestamp);
      }
    }
    forall k | 0 <= k < |h|
      ensures exists i :: 0 <= i < |r| && r[i].0 == h[k].timestamp
    {
      if k < |init| {
        assert h[k] == init[k];
        var i :| 0 <= i < |g| && g[i].0 == init[k].timestamp;
        assert r[i].0 == g[i].0;
      } else {
        if found.Some? {
          assert r[found.value].0 == e.timestamp;
        } else {
          assert r[|g|].0 == e.timestamp;
        }
      }
    }
  }

  /** The entries of a grouping, one per group, in grouping order. */
  function Averages(g: Groups): (r: seq<AverageHistoryEntry>)
    requires forall i :: 0 <= i < |g| ==> |g[i].1| > 0
    ensures |r| == |g|
    ensures forall i :: 0 <= i < |g| ==> r[i] == AverageHistoryEntry(g[i].0, Mean(g[i].1))
  {
    if |g| == 0 then [] else [AverageHistoryEntry(g[0].0, Mean(g[0].1))] + Averages(g[1..])
  }

  /** The mean price of each timestamp, by timestamp (`getAverageHistory`). */
  function AverageHistory(h: seq<StockHistoryEntry>): seq<AverageHistoryEntry>
  {
    GroupByTimeGroups(h);
    SortBy(Averages(GroupByTime(h)), AverageTime)
  }

  /**
   * The average history holds one entry per distinct timestamp of the
   * table, in strictly increasing timestamp order, and each entry's value
   * is the mean of every price recorded at its timestamp.
   */
  lemma AverageHistoryCorrect(h: seq<StockHistoryEntry>)
    ensures var r := AverageHistory(h);
            StrictlySortedBy(r, AverageTime)
            && (forall i :: 0 <= i < |r| ==>
                  |PricesAt(h, r[i].timestamp)| > 0 && r[i].averagePrice == Mean(PricesAt(h, r[i].timestamp)))
            && (forall k :: 0 <= k < |h| ==> exists i :: 0 <= i < |r| && r[i].timestamp == h[k].timestamp)
  {
    var g := GroupByTime(h);
    GroupByTimeGroups(h);
    var a := Averages(g);
    SortByStrict(a, AverageTime);
    ReorderedAverages(g, h, SortBy(a, AverageTime));
  }

  /** Any reordering of a grouping's averages has the mean of each timestamp and covers every row. */
  lemma ReorderedAverages(g: Groups, h: seq<StockHistoryEntry>, r: seq<AverageHistoryEntry>)
    requires GroupsOf(g, h)
    requires multiset(r) == multiset(Averages(g))
    ensures forall i :: 0 <= i < |r| ==>
              |PricesAt(h, r[i].timestamp)| > 0 && r[i].averagePrice == Mean(PricesAt(h, r[i].timestamp))
    ensures forall k :: 0 <= k < |h| ==> exists i :: 0 <= i < |r| && r[i].timestamp == h[k].timestamp
  {
    var a := Averages(g);
    forall i | 0 <= i < |r|
      ensures |PricesAt(h, r[i].timestamp)| > 0 && r[i].averagePrice == Mean(PricesAt(h, r[i].timestamp))
    {
      assert r[i] in multiset(a);
      var j :| 0 <= j < |a| && a[j] == r[i];
    }
    forall k | 0 <= k < |h|
      ensures exists i :: 0 <= i < |r| && r[i].timestamp == h[k].timestamp
    {
      var j :| 0 <= j < |g| && g[j].0 == h[k].timestamp;
      assert a[j] in multiset(r);
      var i :| 0 <= i < |r| && r[i] == a[j];
    }
  }
}
