/**
 * The trade-settlement branches of `ButtonListener.onButtonInteraction`:
 * the maintenance gate, `buy_confirm` and `sell_confirm`. A button id is
 * `prefix:userId:companyId:pieces`; each branch checks the request against
 * the company ledger, the bank and the positions table, then calls the
 * three of them in a fixed order and drops the user's pending message.
 * Embeds, private messages and the other button branches are not modelled.
 */
module Settlement {
  import opened Common
  import opened KotlinText
  import opened PriceRules
  import opened Bank
  import Positions
  import CompanyLedger

  /** The three numeric fields of a trade button id. */
  datatype TradeRequest = TradeRequest(userId: Int64, companyId: Int32, pieces: Int32)

  /**
   * `idParts[1]`, `idParts[2]` and `idParts[3]` as Long, Int and Int. None
   * exactly when `buy_confirm`'s `toLong()`/`toInt()` (or the index) throw
   * and when `sell_confirm`'s size check or `...OrNull() ?: return` stop it;
   * either way nothing has been touched yet.
   */
  function ParseTrade(idParts: seq<string>): (r: Option<TradeRequest>)
    ensures r.Some? <==> |idParts| >= 4 && ToLongOrNull(idParts[1]).Some? && ToIntOrNull(idParts[2]).Some? && ToIntOrNull(idParts[3]).Some?
    ensures r.Some? ==> r.value == TradeRequest(ToLongOrNull(idParts[1]).value, ToIntOrNull(idParts[2]).value, ToIntOrNull(idParts[3]).value)
  {
    if |idParts| < 4 then None
    else match (ToLongOrNull(idParts[1]), ToIntOrNull(idParts[2]), ToIntOrNull(idParts[3]))
      case (Some(u), Some(c), Some(p)) => Some(TradeRequest(u, c, p))
      case _ => None
  }

  /** The button id a trade request is written as. */
  function TradeId(prefix: string, t: TradeRequest): string
  {
    Join([prefix, ShowInt(t.userId), ShowInt(t.companyId), ShowInt(t.pieces)], ':')
  }

  lemma ShowIntHasNoColon(n: int)
    ensures ':' !in ShowInt(n)
  {
    if n < 0 {
      assert ShowInt(n)[1..] == ShowNat(-n);
    }
  }

  /** A button id written from a request, with a prefix free of ':', splits and parses back to that request. */
  lemma ParseTradeId(prefix: string, t: TradeRequest)
    requires ':' !in prefix
    ensures var parts := Split(TradeId(prefix, t), ':');
            parts[0] == prefix && ParseTrade(parts) == Some(t)
  {
    var fields := [prefix, ShowInt(t.userId), ShowInt(t.companyId), ShowInt(t.pieces)];
    ShowIntHasNoColon(t.userId);
    ShowIntHasNoColon(t.companyId);
    ShowIntHasNoColon(t.pieces);
    SplitJoin(fields, ':');
    ParseShowInt(t.userId);
    ParseShowInt(t.companyId);
    ParseShowInt(t.pieces);
  }

  /**
   * The buy path does not charge the price it checked. A company at 1000
   * with 1000 shares, all free, and a user holding 100000: 100 shares cost
   * exactly the balance, so the check at the quoted price passes; buyStock
   * (neutral draws) reprices the company to 1011, and the debit of 101100
   * exceeds the balance, so removeBalance's guard turns it into a no-op.
   */
  lemma BuyDebitAtRepricedPriceCanBeSkipped()
    ensures var s := StockState(1000.0, 1000, 1000);
            var accts := map[7 := Account(100000.0, false)];
            var repriced := AfterBuy(s, 100, 1.0, 0.0);
            !(Balance(accts, 7) < s.stockPrice * 100.0)
            && repriced.Some? && repriced.value.stockPrice == 1011.0
            && Debited(accts, 7, repriced.value.stockPrice * 100.0) == accts
  {
    var s := StockState(1000.0, 1000, 1000);
    var s1 := s.(availableStocks := 900);
    assert ScarcityMultiplier(s1) == 1.001;
    assert DemandSupplyEffect(100, 1000) == 1.01;
    assert Drawn(1000.0, 1.001 * 1.01, 1.0, 0.0) == 1011.01;
  }

  /**
   * A `buy_confirm` id with negative pieces passes the balance check for any
   * account holding at least 0, the position and inventory calls refuse it,
   * and removeBalance of the negative cost raises the balance.
   */
  lemma NegativePiecesBuyCredits(accts: Accounts, userId: Int64, price: real, pieces: Int32)
    requires userId in accts && !accts[userId].onFreeze && accts[userId].balance >= 0.0
    requires IsListedPrice(price) && pieces < 0
    ensures !(Balance(accts, userId) < price * pieces as real)
    ensures Debited(accts, userId, price * pieces as real)[userId].balance > accts[userId].balance
  {
    assert price * pieces as real < 0.0 by {
      assert price * (-(pieces as int)) as real > 0.0;
    }
  }

  /** With neutral draws the amount buy_confirm debits is never below the amount it checked. */
  lemma NeutralBuyDebitsAtLeastQuoted(s: StockState, pieces: Int32)
    requires FloatConsistent(s) && s.totalStocks > 0 && IsListedPrice(s.stockPrice)
    requires AfterBuy(s, pieces, 1.0, 0.0).Some?
    ensures AfterBuy(s, pieces, 1.0, 0.0).value.stockPrice * pieces as real >= s.stockPrice * pieces as real
  {
    NeutralBuyNeverLowersPrice(s, pieces);
    var p := AfterBuy(s, pieces, 1.0, 0.0).value.stockPrice;
    assert p * pieces as real - s.stockPrice * pieces as real == (p - s.stockPrice) * pieces as real;
  }

  /** `price * pieces`: what a trade of `pieces` shares at `price` moves. */
  function Cost(price: real, pieces: Int32): real
  {
    price * pieces as real
  }

  class ButtonListener {
    const companyManager: CompanyLedger.CompanyManager
    const bankManager: BankManager
    const stockManager: Positions.StockManager
    /** The user ids of `slashCommandListener.tempMessages`, the pending confirmation messages. */
    var tempMessages: set<Int64>

    constructor (companyManager: CompanyLedger.CompanyManager, bankManager: BankManager, stockManager: Positions.StockManager, tempMessages: set<Int64>)
      ensures this.companyManager == companyManager && this.bankManager == bankManager
      ensures this.stockManager == stockManager && this.tempMessages == tempMessages
    {
      this.companyManager := companyManager;
      this.bankManager := bankManager;
      this.stockManager := stockManager;
      this.tempMessages := tempMessages;
    }

    /** The ledger, the bank and the positions table are as they were. */
    twostate predicate StoresUntouched()
      reads this, companyManager, bankManager, stockManager, companyManager.companyList
    {
      companyManager.companyList == old(companyManager.companyList)
      && (forall c :: c in companyManager.companyList ==> unchanged(c))
      && unchanged(bankManager) && unchanged(stockManager)
    }

    /**
     * The effect of `buy_confirm` on the id split into `idParts`:
     * - an unparsable id changes nothing;
     * - a missing company or a balance below price * pieces at the pre-trade
     *   price only drops the pending message;
     * - otherwise `stockManager.buy`, `companyManager.buyStock` (by name) and
     *   `bankManager.removeBalance` run in that order, whatever the first
     *   two return, and the debit is price * pieces at the price buyStock
     *   left on the company object.
     */
    twostate predicate BuySettled(idParts: seq<string>, noise: real, trendDraw: real)
      reads this, companyManager, bankManager, stockManager, companyManager.companyList
    {
      match ParseTrade(idParts)
      case None => StoresUntouched() && tempMessages == old(tempMessages)
      case Some(t) =>
        tempMessages == old(tempMessages) - {t.userId}
        && var company := old(companyManager.GetCompanyById(t.companyId));
        if company.None? || old(bankManager.GetBalance(t.userId)) < Cost(old(company.value.stockPrice), t.pieces) then
          StoresUntouched()
        else
          companyManager.companyList == old(companyManager.companyList)
          && BuyExecuted(t, company.value, noise, trendDraw)
    }

    /**
     * The three calls of a `buy_confirm` that passed its check, in order:
     * `stockManager.buy` (refused for pieces <= 0 or an id its own ledger
     * does not know), `companyManager.buyStock` by name, and
     * `removeBalance` of price * pieces at the price buyStock left on
     * `company`; then the pending message is dropped.
     */
    twostate predicate BuyExecuted(t: TradeRequest, company: CompanyLedger.Company, noise: real, trendDraw: real)
      reads this, companyManager, bankManager, stockManager, companyManager.companyList, company
    {
      var held := old(stockManager.playerStocks);
      companyManager.Traded(company.name, old(companyManager.BuyOutcome(company.name, t.pieces, noise, trendDraw)))
      && stockManager.playerStocks ==
           (if t.pieces > 0 && old(stockManager.companyManager.GetCompanyById(t.companyId)).Some?
            then held[(t.userId, t.companyId) := Positions.Bought(held, t.userId, t.companyId, t.pieces).value]
            else held)
      && bankManager.accounts == Debited(old(bankManager.accounts), t.userId, Cost(company.stockPrice, t.pieces))
      && tempMessages == old(tempMessages) - {t.userId}
    }

    /**
     * The effect of `sell_confirm` on the id split into `idParts`:
     * - an unparsable id changes nothing;
     * - pieces <= 0, a missing company, or an owned amount below pieces only
     *   drop the pending message;
     * - otherwise `bankManager.addBalance` credits price * pieces at the
     *   pre-trade price, then `stockManager.sell` and
     *   `companyManager.sellStock` (by name) run.
     */
    twostate predicate SellSettled(idParts: seq<string>, noise: real, trendDraw: real)
      reads this, companyManager, bankManager, stockManager, companyManager.companyList
    {
      match ParseTrade(idParts)
      case None => StoresUntouched() && tempMessages == old(tempMessages)
      case Some(t) =>
        tempMessages == old(tempMessages) - {t.userId}
        && var company := old(companyManager.GetCompanyById(t.companyId));
        var held := old(stockManager.playerStocks);
        if t.pieces <= 0 || company.None? || Positions.Sold(held, t.userId, t.companyId, t.pieces).None? then
          StoresUntouched()
        else
          SellExecuted(t, company.value, noise, trendDraw)
    }

    /**
     * The three calls of a `sell_confirm` that passed its checks, in order:
     * `addBalance` of price * pieces at the pre-trade price,
     * `stockManager.sell`, and `companyManager.sellStock` by name; then the
     * pending message is dropped.
     */
    twostate predicate SellExecuted(t: TradeRequest, company: CompanyLedger.Company, noise: real, trendDraw: real)
      reads this, companyManager, bankManager, stockManager, companyManager.companyList
    {
      var held := old(stockManager.playerStocks);
      companyManager.Traded(company.name, old(companyManager.SellOutcome(company.name, t.pieces, noise, trendDraw)))
      && Positions.Sold(held, t.userId, t.companyId, t.pieces).Some?
      && stockManager.playerStocks == held[(t.userId, t.companyId) := Positions.Sold(held, t.userId, t.companyId, t.pieces).value]
      && bankManager.accounts == Credited(old(bankManager.accounts), t.userId, Cost(old(company.stockPrice), t.pieces))
      && tempMessages == old(tempMessages) - {t.userId}
    }

    /**
     * `onButtonInteraction` for the settlement buttons. While maintenance is
     * on nothing is touched. `noise` and `trendDraw` are the draws the
     * ledger's repricing makes.
     */
    method OnButtonInteraction(componentId: string, maintenance: bool, noise: real, trendDraw: real)
      requires companyManager.Valid() && IsMarketNoise(noise) && IsTrendDraw(trendDraw)
      modifies this, bankManager, stockManager, companyManager.companyList
      ensures maintenance ==> StoresUntouched() && tempMessages == old(tempMessages)
      ensures !maintenance && Split(componentId, ':')[0] == "buy_confirm" ==> BuySettled(Split(componentId, ':'), noise, trendDraw)
      ensures !maintenance && Split(componentId, ':')[0] == "sell_confirm" ==> SellSettled(Split(componentId, ':'), noise, trendDraw)
    {
      if maintenance {
        return;
      }
      var idParts := Split(componentId, ':');
      if idParts[0] == "buy_confirm" {
        BuyConfirm(idParts, noise, trendDraw);
      } else if idParts[0] == "sell_confirm" {
        SellConfirm(idParts, noise, trendDraw);
      }
    }

    /** The `buy_confirm` branch. */
    method BuyConfirm(idParts: seq<string>, noise: real, trendDraw: real)
      requires companyManager.Valid() && IsMarketNoise(noise) && IsTrendDraw(trendDraw)
      modifies this, bankManager, stockManager, companyManager.companyList
      ensures BuySettled(idParts, noise, trendDraw)
    {
      var request := ParseTrade(idParts);
      if request.None? {
        return;
      }
      var userId, companyId, pieces := request.value.userId, request.value.companyId, request.value.pieces;
      var company := companyManager.GetCompanyById(companyId);
      var balance := bankManager.GetBalance(userId);
      if company.None? || balance < Cost(company.value.stockPrice, pieces) {
        tempMessages := tempMessages - {userId};
        return;
      }
      ExecuteBuy(request.value, company.value, noise, trendDraw);
    }

    /** The mutations of a `buy_confirm` that passed its check; the results of the first two calls are dropped. */
    method ExecuteBuy(t: TradeRequest, company: CompanyLedger.Company, noise: real, trendDraw: real)
      requires companyManager.Valid() && IsMarketNoise(noise) && IsTrendDraw(trendDraw)
      requires company in companyManager.companyList
      modifies this, bankManager, stockManager, companyManager.companyList
      ensures companyManager.companyList == old(companyManager.companyList)
      ensures BuyExecuted(t, company, noise, trendDraw)
    {
      var _ := stockManager.Buy(t.userId, t.companyId, t.pieces);
      var _ := companyManager.BuyStock(company.name, t.pieces, noise, trendDraw);
      bankManager.RemoveBalance(t.userId, Cost(company.stockPrice, t.pieces));
      tempMessages := tempMessages - {t.userId};
    }

    /** The `sell_confirm` branch. */
    method SellConfirm(idParts: seq<string>, noise: real, trendDraw: real)
      requires companyManager.Valid() && IsMarketNoise(noise) && IsTrendDraw(trendDraw)
      modifies this, bankManager, stockManager, companyManager.companyList
      ensures SellSettled(idParts, noise, trendDraw)
    {
      var request := ParseTrade(idParts);
      if request.None? {
        return;
      }
      var userId, companyId, pieces := request.value.userId, request.value.companyId, request.value.pieces;
      if pieces <= 0 {
        tempMessages := tempMessages - {userId};
        return;
      }
      var company := companyManager.GetCompanyById(companyId);
      var owned := stockManager.GetOwnedStocks(userId);
      var ownedStock := Find(owned, (s: Positions.PlayerStock) => s.companyId == companyId);
      OwnedLookup(stockManager.playerStocks, userId, companyId, owned);
      if company.None? || ownedStock.None? || ownedStock.value.amount < pieces {
        tempMessages := tempMessages - {userId};
        return;
      }
      ExecuteSell(request.value, company.value, noise, trendDraw);
    }

    /** The mutations of a `sell_confirm` that passed its checks; the results of the last two calls are dropped. */
    method ExecuteSell(t: TradeRequest, company: CompanyLedger.Company, noise: real, trendDraw: real)
      requires companyManager.Valid() && IsMarketNoise(noise) && IsTrendDraw(trendDraw)
      requires company in companyManager.companyList && t.pieces > 0
      requires Positions.Sold(stockManager.playerStocks, t.userId, t.companyId, t.pieces).Some?
      modifies this, bankManager, stockManager, companyManager.companyList
      ensures old(companyManager.SellOutcome(company.name, t.pieces, noise, trendDraw)).Some?
      ensures SellExecuted(t, company, noise, trendDraw)
    {
      bankManager.AddBalance(t.userId, Cost(company.stockPrice, t.pieces));
      var _ := stockManager.Sell(t.userId, t.companyId, t.pieces);
      var _ := companyManager.SellStock(company.name, t.pieces, noise, trendDraw);
      tempMessages := tempMessages - {t.userId};
    }
  }

  /** `getOwnedStocks(userId).find { it.companyId == companyId }` finds the stored row exactly when it holds more than 0. */
  lemma OwnedLookup(h: Positions.Holdings, userId: Int64, companyId: Int32, owned: seq<Positions.PlayerStock>)
    requires Positions.IsPlayerQuery(h, userId, true, owned)
    ensures var found := Find(owned, (s: Positions.PlayerStock) => s.companyId == companyId);
            (found.Some? <==> (userId, companyId) in h && h[(userId, companyId)] > 0)
            && (found.Some? ==> found.value.amount == h[(userId, companyId)])
  {
  }
}
