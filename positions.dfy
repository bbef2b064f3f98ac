/**
 * The `player_stocks` table (`StockManager`): how many shares of each
 * company every player holds, keyed by (player_id, company_id). A buy or
 * a sell reads the row, computes the new amount in Kotlin `Int` arithmetic
 * and writes it back with an upsert, so a row that drops to zero stays in
 * the table.
 */
module Positions {
  import opened Common
  import CompanyLedger

  /** `data class PlayerStock(companyId, amount)`. */
  datatype PlayerStock = PlayerStock(companyId: Int32, amount: Int32)

  /** The table, keyed by (player_id, company_id). */
  type Holdings = map<(Int64, Int32), Int32>

  /** The stored amount, 0 when there is no row (`getStock(...)?.amount ?: 0`). */
  function Held(h: Holdings, playerId: Int64, companyId: Int32): (a: Int32)
    ensures (playerId, companyId) !in h ==> a == 0
    ensures (playerId, companyId) in h ==> a == h[(playerId, companyId)]
  {
    if (playerId, companyId) in h then h[(playerId, companyId)] else 0
  }

  /**
   * `buy` on a company id the ledger knows: the new amount is the held
   * amount plus `amount` in `Int` arithmetic, upserted. None when
   * `amount <= 0`.
   */
  function Bought(h: Holdings, playerId: Int64, companyId: Int32, amount: Int32): (r: Option<Int32>)
    ensures r.Some? <==> amount > 0
    ensures r.Some? && Held(h, playerId, companyId) + amount <= INT_MAX ==> r.value == Held(h, playerId, companyId) + amount
    ensures r.Some? && Held(h, playerId, companyId) >= 0 ==> r.value > Held(h, playerId, companyId) || r.value < 0
  {
    if amount <= 0 then None else Some(AddInt(Held(h, playerId, companyId), amount))
  }

  /** `sell`: None when `amount <= 0`, when there is no row, or when the row holds less than `amount`. */
  function Sold(h: Holdings, playerId: Int64, companyId: Int32, amount: Int32): (r: Option<Int32>)
    ensures r.Some? <==> amount > 0 && (playerId, companyId) in h && h[(playerId, companyId)] >= amount
    ensures r.Some? ==> r.value == h[(playerId, companyId)] - amount && r.value >= 0
  {
    if amount <= 0 || (playerId, companyId) !in h || h[(playerId, companyId)] < amount then None
    else Some(h[(playerId, companyId)] - amount)
  }

  /** The rows a player query returns: all of the player's rows, or with `positiveOnly` only those with `amount > 0`. */
  ghost predicate IsPlayerQuery(h: Holdings, playerId: Int64, positiveOnly: bool, rows: seq<PlayerStock>)
  {
    (forall i :: 0 <= i < |rows| ==>
       (playerId, rows[i].companyId) in h && h[(playerId, rows[i].companyId)] == rows[i].amount
       && (positiveOnly ==> rows[i].amount > 0))
    && (forall c :: (playerId, c) in h && (!positiveOnly || h[(playerId, c)] > 0) ==>
          exists i :: 0 <= i < |rows| && rows[i].companyId == c)
    && (forall i, j :: 0 <= i < j < |rows| ==> rows[i].companyId != rows[j].companyId)
  }

  /** Buying and then selling the same amount restores the stored amount; a row created by the buy stays, at 0. */
  lemma BuyThenSellRestores(h: Holdings, playerId: Int64, companyId: Int32, amount: Int32)
    requires amount > 0 && 0 <= Held(h, playerId, companyId) && Held(h, playerId, companyId) + amount <= INT_MAX
    ensures var h1 := h[(playerId, companyId) := Bought(h, playerId, companyId, amount).value];
            Sold(h1, playerId, companyId, amount) == Some(Held(h, playerId, companyId))
  {
  }

  /** Selling a whole holding leaves a zero row: the owned-stocks query drops it, the full player query keeps it. */
  lemma SoldOutRowHiddenNotDeleted(h: Holdings, playerId: Int64, companyId: Int32, owned: seq<PlayerStock>, all: seq<PlayerStock>)
    requires (playerId, companyId) in h && h[(playerId, companyId)] > 0
    requires var h1 := h[(playerId, companyId) := Sold(h, playerId, companyId, h[(playerId, companyId)]).value];
             IsPlayerQuery(h1, playerId, true, owned) && IsPlayerQuery(h1, playerId, false, all)
    ensures forall i :: 0 <= i < |owned| ==> owned[i].companyId != companyId
    ensures exists i :: 0 <= i < |all| && all[i] == PlayerStock(companyId, 0)
  {
    var h1 := h[(playerId, companyId) := 0];
    assert (playerId, companyId) in h1;
  }

  /** Holding a position more than Int.MAX_VALUE - amount and buying again wraps the stored amount negative. */
  lemma BuyOverflowWrapsNegative()
    ensures var h := map[(1, 1) := INT_MAX];
            Bought(h, 1, 1, 1) == Some(INT_MIN)
  {
  }

  class StockManager {
    const companyManager: CompanyLedger.CompanyManager
    var playerStocks: Holdings

    /** `init`: `CREATE TABLE IF NOT EXISTS`; stored rows are kept. */
    constructor (companyManager: CompanyLedger.CompanyManager, stored: Holdings)
      ensures this.companyManager == companyManager && playerStocks == stored
    {
      this.companyManager := companyManager;
      playerStocks := stored;
    }

    /** `getOwnedStocks`: `WHERE player_id = ? AND amount > 0`, in the order the table yields rows. */
    method GetOwnedStocks(playerId: Int64) returns (rows: seq<PlayerStock>)
      ensures IsPlayerQuery(playerStocks, playerId, true, rows)
    {
      rows := QueryPlayer(playerId, true);
    }

    /** `loadPlayer`: `WHERE player_id = ?`, zero rows included. */
    method LoadPlayer(playerId: Int64) returns (rows: seq<PlayerStock>)
      ensures IsPlayerQuery(playerStocks, playerId, false, rows)
    {
      rows := QueryPlayer(playerId, false);
    }

    /** The `while (rs.next())` loop both queries share: visit every row once and keep the matching ones. */
    method QueryPlayer(playerId: Int64, positiveOnly: bool) returns (rows: seq<PlayerStock>)
      ensures IsPlayerQuery(playerStocks, playerId, positiveOnly, rows)
    {
      rows := [];
      var unread := playerStocks.Keys;
      while unread != {}
        invariant unread <= playerStocks.Keys
        invariant forall i :: 0 <= i < |rows| ==>
                    (playerId, rows[i].companyId) in playerStocks - unread
                    && playerStocks[(playerId, rows[i].companyId)] == rows[i].amount
                    && (positiveOnly ==> rows[i].amount > 0)
        invariant forall c :: (playerId, c) in playerStocks - unread && (!positiveOnly || playerStocks[(playerId, c)] > 0) ==>
                    exists i :: 0 <= i < |rows| && rows[i].companyId == c
        invariant forall i, j :: 0 <= i < j < |rows| ==> rows[i].companyId != rows[j].companyId
        decreases unread
      {
        var key :| key in unread;
        if key.0 == playerId && (!positiveOnly || playerStocks[key] > 0) {
          ghost var before := rows;
          rows := rows + [PlayerStock(key.1, playerStocks[key])];
          assert rows[|before|].companyId == key.1;
          assert forall i :: 0 <= i < |before| ==> rows[i] == before[i];
        }
        unread := unread - {key};
      }
    }

    /** `getStock`: the row, zero amounts included, or null. */
    function GetStock(playerId: Int64, companyId: Int32): (r: Option<PlayerStock>)
      reads this
      ensures r.Some? <==> (playerId, companyId) in playerStocks
      ensures r.Some? ==> r.value == PlayerStock(companyId, playerStocks[(playerId, companyId)])
    {
      if (playerId, companyId) in playerStocks then Some(PlayerStock(companyId, playerStocks[(playerId, companyId)])) else None
    }

    /** `saveToDB`: insert the row or overwrite its amount. */
    method SaveToDB(playerId: Int64, companyId: Int32, amount: Int32)
      modifies this
      ensures playerStocks == old(playerStocks)[(playerId, companyId) := amount]
    {
      playerStocks := playerStocks[(playerId, companyId) := amount];
    }

    /** `buy`: null and no write for `amount <= 0` or an unknown company id; otherwise the upserted row. */
    method Buy(playerId: Int64, companyId: Int32, amount: Int32) returns (r: Option<PlayerStock>)
      modifies this
      ensures r.None? <==> amount <= 0 || companyManager.GetCompanyById(companyId).None?
      ensures r.None? ==> playerStocks == old(playerStocks)
      ensures r.Some? ==> r.value == PlayerStock(companyId, Bought(old(playerStocks), playerId, companyId, amount).value)
                          && playerStocks == old(playerStocks)[(playerId, companyId) := r.value.amount]
    {
      if amount <= 0 {
        return None;
      }
      var company := companyManager.GetCompanyById(companyId);
      if company.None? {
        return None;
      }
      var currentAmount := match GetStock(playerId, companyId) case Some(s) => s.amount case None => 0;
      var newAmount := AddInt(currentAmount, amount);
      SaveToDB(playerId, companyId, newAmount);
      return Some(PlayerStock(companyId, newAmount));
    }

    /** `sell`: null and no write unless the row exists and holds at least `amount > 0`; otherwise the upserted row. */
    method Sell(playerId: Int64, companyId: Int32, amount: Int32) returns (r: Option<PlayerStock>)
      modifies this
      ensures r.None? <==> Sold(old(playerStocks), playerId, companyId, amount).None?
      ensures r.None? ==> playerStocks == old(playerStocks)
      ensures r.Some? ==> r.value == PlayerStock(companyId, Sold(old(playerStocks), playerId, companyId, amount).value)
                          && playerStocks == old(playerStocks)[(playerId, companyId) := r.value.amount]
    {
      if amount <= 0 {
        return None;
      }
      var stock := GetStock(playerId, companyId);
      if stock.None? {
        return None;
      }
      var currentAmount := stock.value.amount;
      if currentAmount < amount {
        return None;
      }
      var newAmount := currentAmount - amount;
      SaveToDB(playerId, companyId, newAmount);
      return Some(PlayerStock(companyId, newAmount));
    }
  }
}
