# MaguFinance market core in Dafny

This is a model of the trading core of MaguFinance, a Discord stock-market
game written in Kotlin. Players buy and sell shares of fictional companies
with buttons. The model covers:

- the **company ledger** (`CompanyManager`): each company's price, total
  float and free float. A buy or a sell moves the float and reprices the
  company by scarcity, demand/supply and random draws. Events rescale
  prices by a percentage;
- the **market-wide update** (`MarketManager`);
- the **bank** (`BankManager`): balances and freeze flags, with guarded
  debits and a descending ranking;
- the **positions table** (`StockManager`): shares held per player and
  company;
- **trade settlement** (`ButtonListener`): a `buy_confirm`/`sell_confirm`
  button id is parsed, checked against the ledger, the bank and the
  positions, and the three stores are updated in a fixed order;
- **price history** (`HistoryManager`): snapshots, sorted reads, and
  per-timestamp average prices;
- the **news rotation** (`NewsManager`): a round-robin cursor over a news
  list;
- **console command dispatch** (`CommandManager`): `alias` /
  `alias subcommand` keys.

The repository carries two generations of most managers:

- a database-backed one under `manager/`;
- an older file-backed `object` at the top of the package.

Both are modelled: `CompanyLedger`/`LegacyCompanyLedger`,
`Market`/`LegacyMarket`, `History`/`LegacyHistory` and
`NewsFeed`/`LegacyNewsFeed`.

How the Kotlin is modelled:

- Objects whose fields the source updates become Dafny classes, with `modifies`
  frames. This covers companies, managers and the button listener.
- Database tables become a `map` or `seq` field that the methods reassign.
- Pure rules live in function modules (`PriceRules`, `HistoryRules`,
  `NewsRotation`, `Ordering`, `KotlinText`), and the methods are proved
  against those functions.
- Kotlin `Int`/`Long` are the subset types `Int32`/`Int64`. Where the source
  can overflow, the wrap-around is written out (`AddInt`). `Double` is `real`,
  and `toInt()` truncates toward zero (`Trunc`).
- Every `Random.nextDouble` draw is a parameter. The drawn range is a
  precondition of the method that uses it.
- SQL `ORDER BY` and Kotlin `sortedBy` become `Ordering.SortBy`: a sorted
  permutation of the input.

Where the design description and the code disagree, the model follows the
code:

- A sell raises the price through the demand/supply effect, just as a buy
  does. The sell branch multiplies a negative ratio by `-0.1`
  (`PriceRules.SellEffectEqualsBuyEffect`, `PriceRules.NeutralSellNeverLowersPrice`).
- `buy_confirm` checks the balance against the price before the trade, but
  debits at the price `buyStock` leaves behind.
- The buy path sends the three store calls even when some of them refuse.
- News removal does not reset the cursor.

## Model

| member | source | states |
|---|---|---|
| Common.AddInt | src/main/kotlin/manager/CompanyManager.kt:155 | Kotlin `Int` addition: exact when in range, otherwise wrapped by 2^32 in the direction of the overflow |
| Common.Trunc | src/main/kotlin/manager/CompanyManager.kt:194 | `Double.toInt()` rounds toward zero: the result is within 1 of the input on the side of zero |
| Common.Find | src/main/kotlin/CompanyManager.kt:69 | Kotlin `find`: a found element is in the list and satisfies the predicate; nothing is found iff no element satisfies it |
| KotlinText.Split | src/main/kotlin/ButtonListener.kt:29 | `split(sep)` yields at least one field and no field contains the separator |
| KotlinText.JoinSplit | src/main/kotlin/ButtonListener.kt:29 | joining the split fields with the separator gives the original text back |
| KotlinText.SplitJoin | src/main/kotlin/command/CommandManager.kt:24 | splitting separator-free fields joined by the separator gives the fields back |
| KotlinText.ParseDecimal | src/main/kotlin/ButtonListener.kt:132-134 | a number is read iff the text is digits, optionally after one '+' or '-' sign |
| KotlinText.ToLongOrNull | src/main/kotlin/ButtonListener.kt:132 | `toLongOrNull` succeeds iff the text parses and the value fits in a `Long`, and then returns that value |
| KotlinText.ToIntOrNull | src/main/kotlin/ButtonListener.kt:133-134 | `toIntOrNull` succeeds iff the text parses and the value fits in an `Int`, and then returns that value |
| KotlinText.ParseShowInt | src/main/kotlin/ButtonListener.kt:68-70 | reading back the decimal text of any integer gives that integer |
| PriceRules.ClampThenTruncate | src/main/kotlin/manager/CompanyManager.kt:193-194 | the repriced value is a whole price of at least 1, within 1 below the raw value when that is at least 1 |
| PriceRules.ClampOrderIrrelevant | src/main/kotlin/manager/MarketManager.kt:15-16 | clamping at 1 before truncation (ledger) and after it (market) give the same price |
| PriceRules.ScarcityMultiplier | src/main/kotlin/manager/CompanyManager.kt:180-181 | with a consistent float the scarcity multiplier is at least 1 |
| PriceRules.DemandSupplyEffect | src/main/kotlin/manager/CompanyManager.kt:183-187 | both branches give 1 + abs(change)/total * 0.1: at least 1, and above 1 for any non-zero change |
| PriceRules.SellEffectEqualsBuyEffect | src/main/kotlin/manager/CompanyManager.kt:183-187 | a sell of qty moves the effect exactly as a buy of qty does |
| PriceRules.Reprice | src/main/kotlin/manager/CompanyManager.kt:177-195 | repricing leaves the float alone, does nothing when the total is not positive, and otherwise lists a whole price of at least 1 |
| PriceRules.Multiplier | src/main/kotlin/manager/CompanyManager.kt:180-188 | with a consistent float the combined multiplier is at least 1 |
| PriceRules.AfterBuy | src/main/kotlin/manager/CompanyManager.kt:127-142 | a buy succeeds iff qty > 0 and enough stock is free; then the free float drops by exactly qty, stays non-negative, and the price is a whole listed price |
| PriceRules.AfterSell | src/main/kotlin/manager/CompanyManager.kt:151-159 | a sell succeeds iff qty > 0; the free float is capped at the total and, without overflow, equals the capped sum |
| PriceRules.Rescaled | src/main/kotlin/manager/CompanyManager.kt:171-172 | an event leaves the float alone and lists a whole price of at least 1 |
| PriceRules.BuyKeepsFloatConsistent | src/main/kotlin/manager/CompanyManager.kt:133-142 | a successful buy keeps 0 <= available <= total |
| PriceRules.SellKeepsFloatConsistent | src/main/kotlin/manager/CompanyManager.kt:155-158 | a sell keeps the float consistent as long as available + qty fits in an `Int` |
| PriceRules.SellOverflowBreaksFloat | src/main/kotlin/manager/CompanyManager.kt:155 | selling `Int.MAX_VALUE` into a company with 10 free shares wraps the free float negative |
| PriceRules.BuyThenSellRestoresFloat | src/main/kotlin/manager/CompanyManager.kt:123-163 | selling what was just bought restores the free float exactly |
| PriceRules.NeutralBuyNeverLowersPrice | src/main/kotlin/manager/CompanyManager.kt:133-142 | with neutral draws a buy never lowers a listed price |
| PriceRules.NeutralSellNeverLowersPrice | src/main/kotlin/manager/CompanyManager.kt:155-159 | with neutral draws a sell never lowers a listed price either |
| PriceRules.NeutralRepriceNeverLowers | src/main/kotlin/manager/CompanyManager.kt:177-195 | with neutral draws and a consistent float, repricing never lowers a listed price |
| PriceRules.MarketRepriced | src/main/kotlin/manager/MarketManager.kt:12-16 | the market-wide price is a whole price of at least 1, within 1 below the raw product when that is at least 1 |
| PriceRules.DefaultMarketMoveIsSmall | src/main/kotlin/manager/MarketManager.kt:10-19 | with the default factors one update keeps any price p >= 1 within (0.98 p - 1, 1.02 p) |
| CompanyLedger.MaxId | src/main/kotlin/manager/CompanyManager.kt:87 | the largest id is an id of the list and bounds every id |
| CompanyLedger.NextId | src/main/kotlin/manager/CompanyManager.kt:87 | the new id is 1 for an empty list and otherwise the largest id plus one |
| CompanyLedger.NextIdIsFresh | src/main/kotlin/manager/CompanyManager.kt:87 | without overflow the new id differs from every existing id |
| CompanyLedger.CompanyManager.constructor | src/main/kotlin/manager/CompanyManager.kt:24-39 | `init` loads one fresh company object per stored row, in row order |
| CompanyLedger.CompanyManager.LoadCompanies | src/main/kotlin/manager/CompanyManager.kt:41-57 | the list is replaced by one fresh company per row, in row order |
| CompanyLedger.CompanyManager.CreateCompany | src/main/kotlin/manager/CompanyManager.kt:86-92 | one company is appended with the next id, all shares free and a consistent float; with distinct ids before and no overflow, ids stay distinct |
| CompanyLedger.CompanyManager.GetCompany | src/main/kotlin/manager/CompanyManager.kt:115-117 | a found company is in the list under that name; none is found iff no company has the name |
| CompanyLedger.GetCompanyIsFirst | src/main/kotlin/manager/CompanyManager.kt:115-117 | the company found is the first one in list order with that name |
| CompanyLedger.CompanyManager.GetCompanyById | src/main/kotlin/manager/CompanyManager.kt:119-121 | a found company is in the list with that id; none is found iff no company has the id |
| CompanyLedger.GetCompanyByIdIsUnique | src/main/kotlin/manager/CompanyManager.kt:119-121 | with distinct ids the lookup returns exactly the company holding the id |
| CompanyLedger.CompanyManager.BuyOutcome | src/main/kotlin/manager/CompanyManager.kt:123-132 | a buy goes through iff the company exists, qty > 0 and enough stock is free |
| CompanyLedger.CompanyManager.SellOutcome | src/main/kotlin/manager/CompanyManager.kt:145-153 | a sell goes through iff the company exists and qty > 0 |
| CompanyLedger.CompanyManager.UpdateStockPrices | src/main/kotlin/manager/CompanyManager.kt:177-195 | the company object takes exactly the repriced state |
| CompanyLedger.CompanyManager.BuyStock | src/main/kotlin/manager/CompanyManager.kt:123-143 | returns true iff the buy goes through; the named company takes the bought-and-repriced state and every other company is unchanged |
| CompanyLedger.CompanyManager.SellStock | src/main/kotlin/manager/CompanyManager.kt:145-163 | returns true iff the company exists and qty > 0; the named company takes the sold-and-repriced state, the others are unchanged |
| CompanyLedger.Company.Rescale | src/main/kotlin/manager/CompanyManager.kt:171-172 | the company takes the rescaled state: the float is untouched and the price is the clamped, truncated scaled price |
| CompanyLedger.CompanyManager.ApplyEvent | src/main/kotlin/manager/CompanyManager.kt:165-175 | the named company, if any, is rescaled by the percentage; no other company changes |
| CompanyLedger.CompanyManager.SmallEvent | src/main/kotlin/manager/CompanyManager.kt:201-209 | the drawn company is rescaled by a draw in [-2%, 2%); no other company changes |
| LegacyCompanyLedger.CompanyManager.constructor | src/main/kotlin/CompanyManager.kt:22-24 | `init` loads one fresh company object per stored item, in order |
| LegacyCompanyLedger.CompanyManager.LoadCompanies | src/main/kotlin/CompanyManager.kt:26-36 | the list is cleared and refilled with one fresh company per item |
| LegacyCompanyLedger.CompanyManager.CreateCompany | src/main/kotlin/CompanyManager.kt:46-51 | one company is appended with all shares free and a consistent float |
| LegacyCompanyLedger.CompanyManager.GetCompany | src/main/kotlin/CompanyManager.kt:69 | a found company is in the list under that name; none is found iff no company has the name |
| LegacyCompanyLedger.CompanyManager.BuyOutcome | src/main/kotlin/CompanyManager.kt:68-78 | a buy goes through iff the company exists, qty > 0 and enough stock is free |
| LegacyCompanyLedger.CompanyManager.SellOutcome | src/main/kotlin/CompanyManager.kt:90-98 | a sell goes through iff the company exists and qty > 0 |
| LegacyCompanyLedger.CompanyManager.UpdateStockPrices | src/main/kotlin/CompanyManager.kt:122-148 | the company object takes exactly the repriced state |
| LegacyCompanyLedger.CompanyManager.BuyStock | src/main/kotlin/CompanyManager.kt:68-88 | returns true iff the buy goes through; only the named company changes, to the bought-and-repriced state |
| LegacyCompanyLedger.CompanyManager.SellStock | src/main/kotlin/CompanyManager.kt:90-108 | returns true iff the company exists and qty > 0; only the named company changes, to the sold-and-repriced state |
| LegacyCompanyLedger.Company.Rescale | src/main/kotlin/CompanyManager.kt:116-117 | the company takes the rescaled state: the float is untouched and the price is the clamped, truncated scaled price |
| LegacyCompanyLedger.CompanyManager.ApplyEvent | src/main/kotlin/CompanyManager.kt:110-120 | the named company, if any, is rescaled by the percentage; no other company changes |
| LegacyCompanyLedger.CompanyManager.SmallEvent | src/main/kotlin/CompanyManager.kt:154-161 | the drawn company is rescaled by a draw in [-2%, 2%); no other company changes |
| Market.MarketManager.constructor | src/main/kotlin/manager/MarketManager.kt:6-9 | the manager works on the given ledger |
| Market.MarketManager.UpdateStockPrices | src/main/kotlin/manager/MarketManager.kt:10-19 | every company's price becomes its market-repriced value under its own noise draw; the list and the floats are unchanged |
| LegacyMarket.MarketManager.constructor | src/main/kotlin/MarketManager.kt:5 | the manager works on the given ledger |
| LegacyMarket.MarketManager.UpdateStockPrices | src/main/kotlin/MarketManager.kt:6-15 | every company's price becomes its market-repriced value under its own noise draw; the list and the floats are unchanged |
| Bank.Opened | src/main/kotlin/manager/BankManager.kt:22-33 | opening keeps an existing row as it is, or adds the row with the initial balance unfrozen; no other row changes |
| Bank.Credited | src/main/kotlin/manager/BankManager.kt:36-43 | a credit applies only to an existing unfrozen row; no other row changes |
| Bank.Debited | src/main/kotlin/manager/BankManager.kt:46-54 | a debit applies only to an existing, unfrozen row holding at least the amount; otherwise nothing changes |
| Bank.Frozen | src/main/kotlin/manager/BankManager.kt:57-64 | freezing sets only the flag of an existing row |
| Bank.Balance | src/main/kotlin/manager/BankManager.kt:67-76 | the stored balance, or -1.0 when there is no row |
| Bank.OpenIsIdempotent | src/main/kotlin/manager/BankManager.kt:24-26 | opening an account twice is the same as opening it once |
| Bank.DebitNeverOverdraws | src/main/kotlin/manager/BankManager.kt:48 | a debit never leaves a negative balance in a table without one |
| Bank.CreditThenDebitRestores | src/main/kotlin/manager/BankManager.kt:36-54 | a debit of what was just credited restores the table |
| Bank.FrozenAccountKeepsBalance | src/main/kotlin/manager/BankManager.kt:36-64 | a frozen account neither gains nor loses money, and freezing moves no money |
| Bank.MissingAccountUntouched | src/main/kotlin/manager/BankManager.kt:36-76 | no guarded update creates a missing account, and its balance reads as -1.0 |
| Bank.RankedIdsAppend | src/main/kotlin/manager/BankManager.kt:84-88 | adding a row to a ranking adds its id to the ranked ids |
| Bank.BankManager.constructor | src/main/kotlin/manager/BankManager.kt:9-19 | the stored rows are kept |
| Bank.BankManager.CreateAccount | src/main/kotlin/manager/BankManager.kt:22-33 | the table becomes the opened table |
| Bank.BankManager.AddBalance | src/main/kotlin/manager/BankManager.kt:36-43 | the table becomes the credited table |
| Bank.BankManager.RemoveBalance | src/main/kotlin/manager/BankManager.kt:46-54 | the table becomes the debited table |
| Bank.BankManager.FreezeAccount | src/main/kotlin/manager/BankManager.kt:57-64 | the table becomes the frozen table |
| Bank.BankManager.GetBalance | src/main/kotlin/manager/BankManager.kt:67-76 | the stored balance, or -1.0 without a row |
| Bank.BankManager.GetBalanceRanking | src/main/kotlin/manager/BankManager.kt:79-91 | no result iff the limit is negative; otherwise min(limit, rows) distinct table rows, richest first, with no omitted row richer than a kept one |
| Positions.Held | src/main/kotlin/StockManager.kt:64 | the stored amount, or 0 without a row |
| Positions.Bought | src/main/kotlin/StockManager.kt:60-68 | refused iff amount <= 0; otherwise held + amount without overflow, and never a smaller non-negative amount |
| Positions.Sold | src/main/kotlin/StockManager.kt:70-78 | accepted iff amount > 0 and the row holds at least amount; the new amount is the difference, not negative |
| Positions.BuyThenSellRestores | src/main/kotlin/StockManager.kt:60-78 | selling what was just bought gives back the amount held before |
| Positions.SoldOutRowHiddenNotDeleted | src/main/kotlin/StockManager.kt:32-45 | a sold-out row is left out of the owned-stocks query but still returned by the player query at amount 0 |
| Positions.BuyOverflowWrapsNegative | src/main/kotlin/StockManager.kt:65 | buying one share on top of `Int.MAX_VALUE` stores `Int.MIN_VALUE` |
| Positions.StockManager.constructor | src/main/kotlin/StockManager.kt:16-30 | the stored rows are kept and the ledger is the given one |
| Positions.StockManager.GetOwnedStocks | src/main/kotlin/StockManager.kt:32-45 | exactly the player's rows with amount > 0, each once, with their amounts |
| Positions.StockManager.LoadPlayer | src/main/kotlin/StockManager.kt:96-109 | exactly the player's rows, zero amounts included, each once |
| Positions.StockManager.QueryPlayer | src/main/kotlin/StockManager.kt:39-42 | the row scan keeps exactly the matching rows, each once |
| Positions.StockManager.GetStock | src/main/kotlin/StockManager.kt:47-58 | a row is returned iff it exists, with its stored amount |
| Positions.StockManager.SaveToDB | src/main/kotlin/StockManager.kt:80-94 | the upsert sets exactly that row's amount |
| Positions.StockManager.Buy | src/main/kotlin/StockManager.kt:60-68 | refused, with no write, iff amount <= 0 or the ledger has no such id; otherwise it upserts and returns the bought amount |
| Positions.StockManager.Sell | src/main/kotlin/StockManager.kt:70-78 | refused, with no write, exactly when the sell is refused; otherwise it upserts and returns the remaining amount |
| Settlement.ParseTrade | src/main/kotlin/ButtonListener.kt:131-134 | a request is read iff there are four fields and fields 1 to 3 parse as Long, Int and Int; it then holds those values |
| Settlement.ParseTradeId | src/main/kotlin/ButtonListener.kt:29 | a button id written from a request splits back to its prefix and parses back to the same request |
| Settlement.BuyDebitAtRepricedPriceCanBeSkipped | src/main/kotlin/ButtonListener.kt:75-90 | a concrete buy passes the balance check at the quoted price, but the debit at the repriced price exceeds the balance and is skipped |
| Settlement.NegativePiecesBuyCredits | src/main/kotlin/ButtonListener.kt:68-90 | a `buy_confirm` with negative pieces passes the check and its "debit" raises the balance |
| Settlement.NeutralBuyDebitsAtLeastQuoted | src/main/kotlin/ButtonListener.kt:75-90 | with neutral draws the amount debited is never below the amount checked |
| Settlement.OwnedLookup | src/main/kotlin/ButtonListener.kt:149-150 | the owned-stock lookup finds a row iff the player holds more than 0 of that company, with the stored amount |
| Settlement.ButtonListener.constructor | src/main/kotlin/ButtonListener.kt:13-20 | the listener works on the given ledger, bank, positions and pending messages |
| Settlement.ButtonListener.OnButtonInteraction | src/main/kotlin/ButtonListener.kt:22-30 | under maintenance nothing changes; otherwise the id is split on ':' and a `buy_confirm` or `sell_confirm` settles as those branches state |
| Settlement.ButtonListener.BuyConfirm | src/main/kotlin/ButtonListener.kt:67-119 | unparsable: nothing changes; unknown company or balance below the quoted cost: only the pending message goes; else the buy executes |
| Settlement.ButtonListener.ExecuteBuy | src/main/kotlin/ButtonListener.kt:87-118 | positions buy, ledger buyStock, then a debit at the post-trade price, and the pending message goes |
| Settlement.ButtonListener.SellConfirm | src/main/kotlin/ButtonListener.kt:130-202 | unparsable: nothing changes; pieces <= 0, unknown company or too few owned: only the pending message goes; else the sell executes |
| Settlement.ButtonListener.ExecuteSell | src/main/kotlin/ButtonListener.kt:166-201 | a credit at the pre-trade price, then positions sell and ledger sellStock, both of which go through; the pending message goes |
| Ordering.Insert | src/main/kotlin/manager/HistoryManager.kt:123 | inserting into a sorted list keeps it sorted and adds exactly the element |
| Ordering.SortBy | src/main/kotlin/manager/HistoryManager.kt:69 | the result is sorted by the key and is a permutation of the input |
| Ordering.SortByStrict | src/main/kotlin/manager/HistoryManager.kt:121-123 | sorting items with distinct keys gives a strictly increasing order |
| HistoryRules.SnapshotEntry | src/main/kotlin/manager/HistoryManager.kt:7-14 | a snapshot row records the time, name and price, with open, high and low defaulting to the price |
| HistoryRules.OfCompany | src/main/kotlin/HistoryManager.kt:51-52 | the filtered entries all belong to the company |
| HistoryRules.OfCompanyCounts | src/main/kotlin/manager/HistoryManager.kt:89 | the filter keeps every entry of the company as often as it is stored, and no other entry |
| HistoryRules.OfCompanyAppend | src/main/kotlin/HistoryManager.kt:41-52 | filtering distributes over appending more entries |
| HistoryRules.NoPricesAt | src/main/kotlin/manager/HistoryManager.kt:111-118 | a timestamp without entries has no prices |
| HistoryRules.Mean | src/main/kotlin/manager/HistoryManager.kt:122 | the mean times the count is the sum |
| HistoryRules.GroupByTimeGroups | src/main/kotlin/manager/HistoryManager.kt:111-118 | grouping yields distinct timestamps, each holding exactly its non-empty prices in order, and covers every entry |
| HistoryRules.AddToGroupStep | src/main/kotlin/manager/HistoryManager.kt:117 | adding one entry's price keeps the grouping exact |
| HistoryRules.Averages | src/main/kotlin/manager/HistoryManager.kt:121-122 | one average per group, holding the group's mean |
| HistoryRules.AverageHistoryCorrect | src/main/kotlin/manager/HistoryManager.kt:110-124 | strictly increasing timestamps, each the mean of exactly the prices stored at it, covering every stored timestamp |
| HistoryRules.ReorderedAverages | src/main/kotlin/manager/HistoryManager.kt:121-123 | any reordering of the group averages still holds each timestamp's mean and covers every entry |
| History.HistoryManager.constructor | src/main/kotlin/manager/HistoryManager.kt:21-42 | the stored history is kept and the ledger is the given one |
| History.HistoryManager.RecordSnapshot | src/main/kotlin/manager/HistoryManager.kt:44-64 | one row per company is appended in list order with the time, name and price; the earlier rows stay |
| History.HistoryManager.GetHistory | src/main/kotlin/manager/HistoryManager.kt:66-85 | every stored row, as often as stored, in timestamp order |
| History.HistoryManager.GetStockHistory | src/main/kotlin/manager/HistoryManager.kt:87-108 | exactly the company's rows, as often as stored, in timestamp order |
| History.HistoryManager.GetAverageHistory | src/main/kotlin/manager/HistoryManager.kt:110-124 | one entry per stored timestamp, strictly increasing, each the mean of the prices at it |
| LegacyHistory.HistoryManager.constructor | src/main/kotlin/HistoryManager.kt:24-35 | the history `load` read is kept and the ledger is the given one |
| LegacyHistory.HistoryManager.RecordSnapshot | src/main/kotlin/HistoryManager.kt:41-47 | one entry per company is appended in list order; the earlier entries stay |
| LegacyHistory.HistoryManager.GetHistory | src/main/kotlin/HistoryManager.kt:49 | a copy: the same entries in the same order |
| LegacyHistory.HistoryManager.GetStockHistory | src/main/kotlin/HistoryManager.kt:51-52 | exactly the company's entries, as often as stored, in list order |
| LegacyHistory.HistoryManager.GetAverageHistory | src/main/kotlin/HistoryManager.kt:54-62 | one entry per stored timestamp, strictly increasing, each the mean of the prices at it |
| NewsRotation.NextCursor | src/main/kotlin/manager/NewsManager.kt:48 | the cursor steps by one and wraps to 0 at the end, staying in range |
| NewsRotation.Draws | src/main/kotlin/manager/NewsManager.kt:45-50 | n draws yield n items and leave the cursor in range |
| NewsRotation.DrawsToEnd | src/main/kotlin/manager/NewsManager.kt:47-48 | draws that do not pass the end read the list in order from the cursor |
| NewsRotation.DrawsSplit | src/main/kotlin/manager/NewsManager.kt:45-50 | a + b draws are a draws followed by b draws from where they stopped |
| NewsRotation.FullCycle | src/main/kotlin/manager/NewsManager.kt:45-50 | as many draws as items read every item once, rotated to the cursor, and return the cursor to its start |
| NewsFeed.NewsOf | src/main/kotlin/manager/NewsManager.kt:33-36 | the loaded list holds each row's news, in row order |
| NewsFeed.WithoutId | src/main/kotlin/manager/NewsManager.kt:63 | a row survives removal iff it was there and has another id |
| NewsFeed.WithoutIdAscending | src/main/kotlin/manager/NewsManager.kt:62-70 | removal keeps the ids in ascending order |
| NewsFeed.NewsManager.constructor | src/main/kotlin/manager/NewsManager.kt:13-28 | the table is loaded with the cursor at 0, consistent and in range |
| NewsFeed.NewsManager.LoadNews | src/main/kotlin/manager/NewsManager.kt:30-39 | the in-memory list becomes the table's news in id order; nothing else changes |
| NewsFeed.NewsManager.GetAllNews | src/main/kotlin/manager/NewsManager.kt:41-43 | the table's news, in id order |
| NewsFeed.NewsManager.GetNextNews | src/main/kotlin/manager/NewsManager.kt:45-50 | nothing for an empty list, an index error for a stranded cursor, and otherwise one rotation step; an in-range cursor stays in range |
| NewsFeed.NewsManager.AddNews | src/main/kotlin/manager/NewsManager.kt:52-60 | a row with the next id is appended to the table and its news to the list; the cursor stays |
| NewsFeed.NewsManager.RemoveNews | src/main/kotlin/manager/NewsManager.kt:62-70 | the id's rows leave the table and the list is reloaded; the cursor is not reset |
| NewsFeed.WithoutIdShrinks | src/main/kotlin/manager/NewsManager.kt:62-70 | deleting an id that some row carries leaves fewer rows |
| NewsFeed.RemovalLeavesCursorPastEnd | src/main/kotlin/manager/NewsManager.kt:62-70 | with the cursor on the last item, removing any stored id leaves the unchanged cursor at or past the end of the reloaded list; when that list is non-empty, `getNextNews` throws |
| NewsFeed.RemovalStrandsCursor | src/main/kotlin/manager/NewsManager.kt:45-70 | on a manager with two items, one draw, then removing the first id, the next `getNextNews` throws `IndexOutOfBounds` |
| LegacyNewsFeed.NewsManager.constructor | src/main/kotlin/NewsManager.kt:16-31 | the list is the file's items, else the bundled items, else empty, with the cursor at 0 |
| LegacyNewsFeed.NewsManager.GetAllNews | src/main/kotlin/NewsManager.kt:33-35 | the list, with the cursor inside it when it is non-empty |
| LegacyNewsFeed.NewsManager.GetNextNews | src/main/kotlin/NewsManager.kt:37-42 | null for an empty list, otherwise one rotation step; the cursor stays in range |
| Commands.RegisteredLastWins | src/main/kotlin/command/CommandManager.kt:13-20 | a key is bound to the last member declaring it |
| Commands.RegisteredKeepsOthers | src/main/kotlin/command/CommandManager.kt:13-20 | keys the object does not declare keep their old handlers |
| Commands.OneToken | src/main/kotlin/command/CommandManager.kt:24-25 | an input without spaces is a single token |
| Commands.CommandManager.constructor | src/main/kotlin/command/CommandManager.kt:6-7 | no command is registered |
| Commands.CommandManager.RegisterCommand | src/main/kotlin/command/CommandManager.kt:9-21 | without an alias nothing changes; otherwise every member is bound under its key, the last member winning |
| Commands.CommandManager.RunCommand | src/main/kotlin/command/CommandManager.kt:23-29 | the two-token key is tried first, then the first token; the handler gets every token but the first; no result iff neither key is bound |
| Commands.SubcommandDispatch | src/main/kotlin/command/CommandManager.kt:9-29 | after registration, alias + subcommand + arguments reaches the last member declaring that subcommand, with the subcommand as its first argument |

## Left out

- Floating point: `Double` is modelled as exact `real`. IEEE rounding, NaN, infinities, `toInt()` saturation and summation order are not modelled.
- Randomness: every `Random.nextDouble`/`nextInt` draw is a parameter constrained to its range. The random choice itself is not modelled.
- Persistence and I/O:
  - JDBC statements, SQL text, JSON files and resource copying are not modelled.
  - A table is a `map` or `seq` field, and a query is its effect on that field.
  - The legacy ledger's `save`, the legacy history's load/save and the legacy news JSON decoding are not modelled.
  - The `stock_history` auto-increment id is not modelled.
- Discord, logging and printing are not modelled: embeds, replies, private messages, `println`, and the console listings `showCompanies`, `getCompanies`, `checkCompany`, `reloadCompanies` and `showMarket`.
- Concurrency: every call runs alone. The coroutine and scheduler callers are not modelled.
- The `ac_done`, `ac_cancel`, `buy_cancel` and `sell_cancel` button branches are not modelled, and `Settlement.ButtonListener.OnButtonInteraction` does nothing for these prefixes. `ac_done` opens an account through `createAccount` and drops the pending message; the other three send or delete messages and drop the pending message.
- Settlement.ButtonListener.BuyConfirm: a malformed `buy_confirm` id (fewer than 4 parts, or a field that is not a number) throws in the source (`split(":")[1].toLong()` and the `toInt()` calls); the model treats it as a no-op that changes no store. Nothing has been written at that point, so the state is the same, but the exception is not modelled.
- Settlement.ButtonListener.BuyConfirm: the ledger that `stockManager.buy` consults is not assumed to be the listener's own.
- Bank.BankManager.GetBalanceRanking:
  - a negative `LIMIT` is an SQL error in the source, and is modelled as no result;
  - rows with equal balances may come in any order, as SQL leaves them.
- KotlinText.ParseDecimal: only ASCII digits are accepted. Kotlin also accepts other Unicode decimal digits.
- Market.MarketManager.UpdateStockPrices: a `supplyFactor` of 0 is excluded. In `Double` arithmetic it would give an infinite or NaN price.
- LegacyMarket.MarketManager.UpdateStockPrices: a `supplyFactor` of 0 is excluded for the same reason.
- NewsFeed.NewsManager.AddNews: ids are unbounded integers. `BIGINT` exhaustion is not modelled.
- NewsFeed.NewsManager.GetAllNews: returns a value. The source returns the live list, and aliasing is not modelled.
- Commands.CommandManager.RegisterCommand: the order of the object's members is taken as given. Kotlin reflection does not fix that order.
- Commands.CommandManager.RunCommand: returns the invocation it would make. Running the handler is not modelled, and neither is the "unknown command" message.
- History.HistoryManager.GetHistory: among rows with equal timestamps, the order is any sorted permutation. SQL does not fix it.
