/**
 * The `bank_accounts` table (`BankManager`): one row per Discord user id
 * holding a balance and a freeze flag. Every write is a single guarded
 * statement; a row the guard does not match is left as it was and nothing
 * reports it.
 */
module Bank {
  import opened Common

  /** One row: `balance DOUBLE`, `onFreeze BOOLEAN`. */
  datatype Account = Account(balance: real, onFreeze: bool)

  /** The table, keyed by `user_id`. */
  type Accounts = map<Int64, Account>

  /** `createAccount`'s default `initialBalance`. */
  const DEFAULT_INITIAL_BALANCE: real := 50000.0

  /** `getBalanceRanking`'s default `limit`. */
  const DEFAULT_RANKING_LIMIT: int := 10

  /** All rows but `userId`'s are the same in both tables. */
  ghost predicate OthersUnchanged(before: Accounts, after: Accounts, userId: Int64)
  {
    (forall u :: u != userId ==> (u in after <==> u in before))
    && (forall u :: u != userId && u in before ==> after[u] == before[u])
  }

  /** `INSERT ... VALUES (userId, initialBalance, FALSE) ON DUPLICATE KEY UPDATE balance = balance`. */
  function Opened(accts: Accounts, userId: Int64, initialBalance: real): (r: Accounts)
    ensures userId in r && OthersUnchanged(accts, r, userId)
    ensures userId in accts ==> r[userId] == accts[userId]
    ensures userId !in accts ==> r[userId] == Account(initialBalance, false)
  {
    if userId in accts then accts else accts[userId := Account(initialBalance, false)]
  }

  /** `UPDATE ... SET balance = balance + amount WHERE user_id = userId AND onFreeze = FALSE`. */
  function Credited(accts: Accounts, userId: Int64, amount: real): (r: Accounts)
    ensures r.Keys == accts.Keys && OthersUnchanged(accts, r, userId)
    ensures userId in accts && !accts[userId].onFreeze ==> r[userId] == Account(accts[userId].balance + amount, false)
    ensures userId in accts && accts[userId].onFreeze ==> r == accts
  {
    if userId in accts && !accts[userId].onFreeze then
      accts[userId := accts[userId].(balance := accts[userId].balance + amount)]
    else accts
  }

  /** `UPDATE ... SET balance = balance - amount WHERE user_id = userId AND balance >= amount AND onFreeze = FALSE`. */
  function Debited(accts: Accounts, userId: Int64, amount: real): (r: Accounts)
    ensures r.Keys == accts.Keys && OthersUnchanged(accts, r, userId)
    ensures userId in accts && !accts[userId].onFreeze && accts[userId].balance >= amount ==>
              r[userId] == Account(accts[userId].balance - amount, false)
    ensures userId in accts && (accts[userId].onFreeze || accts[userId].balance < amount) ==> r == accts
  {
    if userId in accts && !accts[userId].onFreeze && accts[userId].balance >= amount then
      accts[userId := accts[userId].(balance := accts[userId].balance - amount)]
    else accts
  }

  /** `UPDATE ... SET onFreeze = freeze WHERE user_id = userId`. */
  function Frozen(accts: Accounts, userId: Int64, freeze: bool): (r: Accounts)
    ensures r.Keys == accts.Keys && OthersUnchanged(accts, r, userId)
    ensures userId in accts ==> r[userId] == Account(accts[userId].balance, freeze)
  {
    if userId in accts then accts[userId := accts[userId].(onFreeze := freeze)] else accts
  }

  /** `getBalance`: the stored balance, or -1.0 when there is no row. */
  function Balance(accts: Accounts, userId: Int64): (b: real)
    ensures userId in accts ==> b == accts[userId].balance
    ensures userId !in accts ==> b == -1.0
  {
    if userId in accts then accts[userId].balance else -1.0
  }

  /** Opening an account twice is opening it once: the second insert is a no-op whatever its balance. */
  lemma OpenIsIdempotent(accts: Accounts, userId: Int64, b1: real, b2: real)
    ensures Opened(Opened(accts, userId, b1), userId, b2) == Opened(accts, userId, b1)
  {
  }

  /** A debit never leaves a negative balance behind, for any amount. */
  lemma DebitNeverOverdraws(accts: Accounts, userId: Int64, amount: real)
    requires forall u :: u in accts ==> accts[u].balance >= 0.0
    ensures forall u :: u in Debited(accts, userId, amount) ==> Debited(accts, userId, amount)[u].balance >= 0.0
  {
  }

  /** Debiting what was just credited restores the table, unless the credit pushed a negative balance past the guard. */
  lemma CreditThenDebitRestores(accts: Accounts, userId: Int64, amount: real)
    requires userId in accts ==> accts[userId].balance >= 0.0
    ensures Debited(Credited(accts, userId, amount), userId, amount) == accts
  {
    if userId in accts && !accts[userId].onFreeze {
      assert Credited(accts, userId, amount)[userId].balance - amount == accts[userId].balance;
    }
  }

  /** A frozen account is closed to money both ways, and freezing never moves money. */
  lemma FrozenAccountKeepsBalance(accts: Accounts, userId: Int64, amount: real)
    ensures Credited(Frozen(accts, userId, true), userId, amount) == Frozen(accts, userId, true)
    ensures Debited(Frozen(accts, userId, true), userId, amount) == Frozen(accts, userId, true)
    ensures forall u :: Balance(Frozen(accts, userId, true), u) == Balance(accts, u)
  {
  }

  /** A missing account stays missing through every guarded update, and its balance reads as -1.0. */
  lemma MissingAccountUntouched(accts: Accounts, userId: Int64, amount: real, freeze: bool)
    requires userId !in accts
    ensures Credited(accts, userId, amount) == accts && Debited(accts, userId, amount) == accts
    ensures Frozen(accts, userId, freeze) == accts && Balance(accts, userId) == -1.0
  {
  }

  /** The ids of a ranking. */
  function RankedIds(ranking: seq<(Int64, real)>): set<Int64>
  {
    set i | 0 <= i < |ranking| :: ranking[i].0
  }

  lemma RankedIdsAppend(ranking: seq<(Int64, real)>, row: (Int64, real))
    ensures RankedIds(ranking + [row]) == RankedIds(ranking) + {row.0}
  {
    var r := ranking + [row];
    assert r[|ranking|].0 == row.0;
    assert forall i :: 0 <= i < |ranking| ==> r[i] == ranking[i];
  }

  /**
   * What `SELECT user_id, balance ... ORDER BY balance DESC LIMIT limit`
   * returns: rows of the table, each once, richest first, and no row left
   * out that is richer than one kept. Rows with equal balances may come in
   * any order.
   */
  ghost predicate IsRanking(accts: Accounts, limit: nat, ranking: seq<(Int64, real)>)
  {
    |ranking| == (if limit < |accts| then limit else |accts|)
    && (forall i :: 0 <= i < |ranking| ==> ranking[i].0 in accts && accts[ranking[i].0].balance == ranking[i].1)
    && (forall i, j :: 0 <= i < j < |ranking| ==> ranking[i].0 != ranking[j].0)
    && (forall i, j :: 0 <= i < j < |ranking| ==> ranking[i].1 >= ranking[j].1)
    && (forall u, i :: u in accts && u !in RankedIds(ranking) && 0 <= i < |ranking| ==> accts[u].balance <= ranking[i].1)
  }

  /** `remaining` is exactly the set of ids not yet ranked. */
  ghost predicate Unranked(accts: Accounts, ranking: seq<(Int64, real)>, remaining: set<Int64>)
  {
    remaining <= accts.Keys
    && (forall u :: u in accts.Keys ==> (u in remaining <==> u !in RankedIds(ranking)))
    && |ranking| + |remaining| == |accts|
  }

  /** Every ranked row is a row of the table, each id at most once. */
  ghost predicate RowsOfTable(accts: Accounts, ranking: seq<(Int64, real)>)
  {
    (forall i :: 0 <= i < |ranking| ==> ranking[i].0 in accts && accts[ranking[i].0].balance == ranking[i].1)
    && (forall i, j :: 0 <= i < j < |ranking| ==> ranking[i].0 != ranking[j].0)
  }

  /** Richest first. */
  ghost predicate Descending(ranking: seq<(Int64, real)>)
  {
    forall i, j :: 0 <= i < j < |ranking| ==> ranking[i].1 >= ranking[j].1
  }

  /** No id still to rank is richer than a ranked row. */
  ghost predicate Dominated(accts: Accounts, ranking: seq<(Int64, real)>, remaining: set<Int64>)
    requires remaining <= accts.Keys
  {
    forall u, i :: u in remaining && 0 <= i < |ranking| ==> accts[u].balance <= ranking[i].1
  }

  /**
   * The state of the descending scan behind the ranking: `ranking` holds
   * the rows taken so far, richest first, and `remaining` the ids not taken,
   * none richer than a row taken.
   */
  ghost predicate Scanned(accts: Accounts, ranking: seq<(Int64, real)>, remaining: set<Int64>)
  {
    Unranked(accts, ranking, remaining) && RowsOfTable(accts, ranking)
    && Descending(ranking) && Dominated(accts, ranking, remaining)
  }

  /** Taking the richest remaining row keeps the scan state. */
  lemma ScanStep(accts: Accounts, ranking: seq<(Int64, real)>, remaining: set<Int64>, top: Int64)
    requires Scanned(accts, ranking, remaining)
    requires top in remaining && forall u :: u in remaining ==> accts[u].balance <= accts[top].balance
    ensures Scanned(accts, ranking + [(top, accts[top].balance)], remaining - {top})
  {
    var row := (top, accts[top].balance);
    UnrankedStep(accts, ranking, remaining, row);
    RowsStep(accts, ranking, remaining, row);
    OrderStep(accts, ranking, remaining, row);
  }

  lemma UnrankedStep(accts: Accounts, ranking: seq<(Int64, real)>, remaining: set<Int64>, row: (Int64, real))
    requires Unranked(accts, ranking, remaining) && row.0 in remaining
    ensures Unranked(accts, ranking + [row], remaining - {row.0})
  {
    RankedIdsAppend(ranking, row);
  }

  lemma RowsStep(accts: Accounts, ranking: seq<(Int64, real)>, remaining: set<Int64>, row: (Int64, real))
    requires Unranked(accts, ranking, remaining) && RowsOfTable(accts, ranking)
    requires row.0 in remaining && row.1 == accts[row.0].balance
    ensures RowsOfTable(accts, ranking + [row])
  {
    var r := ranking + [row];
    forall i, j | 0 <= i < j < |r|
      ensures r[i].0 != r[j].0
    {
      if j == |ranking| {
        assert ranking[i].0 in RankedIds(ranking);
      }
    }
  }

  lemma OrderStep(accts: Accounts, ranking: seq<(Int64, real)>, remaining: set<Int64>, row: (Int64, real))
    requires remaining <= accts.Keys && Descending(ranking) && Dominated(accts, ranking, remaining)
    requires row.0 in remaining && row.1 == accts[row.0].balance
    requires forall u :: u in remaining ==> accts[u].balance <= row.1
    ensures Descending(ranking + [row]) && Dominated(accts, ranking + [row], remaining - {row.0})
  {
  }

  /** When the scan stops at the limit or at the end of the table, the rows taken are the ranking. */
  lemma ScanDone(accts: Accounts, limit: nat, ranking: seq<(Int64, real)>, remaining: set<Int64>)
    requires Scanned(accts, ranking, remaining) && |ranking| <= limit
    requires |ranking| == limit || remaining == {}
    ensures IsRanking(accts, limit, ranking)
  {
  }

  class BankManager {
    var accounts: Accounts

    /** `init`: `CREATE TABLE IF NOT EXISTS`; the rows already stored are kept. */
    constructor (stored: Accounts)
      ensures accounts == stored
    {
      accounts := stored;
    }

    /** `createAccount(userId, initialBalance)`; the Kotlin default balance is DEFAULT_INITIAL_BALANCE. */
    method CreateAccount(userId: Int64, initialBalance: real)
      modifies this
      ensures accounts == Opened(old(accounts), userId, initialBalance)
    {
      if userId !in accounts {
        accounts := accounts[userId := Account(initialBalance, false)];
      }
    }

    /** `addBalance`. */
    method AddBalance(userId: Int64, amount: real)
      modifies this
      ensures accounts == Credited(old(accounts), userId, amount)
    {
      if userId in accounts && !accounts[userId].onFreeze {
        accounts := accounts[userId := Account(accounts[userId].balance + amount, false)];
      }
    }

    /** `removeBalance`. */
    method RemoveBalance(userId: Int64, amount: real)
      modifies this
      ensures accounts == Debited(old(accounts), userId, amount)
    {
      if userId in accounts && !accounts[userId].onFreeze && accounts[userId].balance >= amount {
        accounts := accounts[userId := Account(accounts[userId].balance - amount, false)];
      }
    }

    /** `freezeAccount(userId, freeze)`; the Kotlin default is `true`. */
    method FreezeAccount(userId: Int64, freeze: bool)
      modifies this
      ensures accounts == Frozen(old(accounts), userId, freeze)
    {
      if userId in accounts {
        accounts := accounts[userId := Account(accounts[userId].balance, freeze)];
      }
    }

    /** `getBalance`. */
    function GetBalance(userId: Int64): (b: real)
      reads this
      ensures b == Balance(accounts, userId)
    {
      if userId in accounts then accounts[userId].balance else -1.0
    }

    /**
     * `getBalanceRanking(limit)`: the ranked rows. A negative LIMIT is an SQL
     * error, so there is no result (None) for it.
     */
    method GetBalanceRanking(limit: Int32) returns (r: Option<seq<(Int64, real)>>)
      ensures r.None? <==> limit < 0
      ensures r.Some? ==> IsRanking(accounts, limit, r.value)
    {
      if limit < 0 {
        return None;
      }
      var ranking: seq<(Int64, real)> := [];
      var remaining := accounts.Keys;
      while |ranking| < limit && remaining != {}
        invariant |ranking| <= limit
        invariant Scanned(accounts, ranking, remaining)
        decreases remaining
      {
        var top := Richest(remaining);
        ScanStep(accounts, ranking, remaining, top);
        ranking := ranking + [(top, accounts[top].balance)];
        remaining := remaining - {top};
      }
      ScanDone(accounts, limit, ranking, remaining);
      return Some(ranking);
    }

    /** The next row of the descending scan: one with the largest balance among `ids`. */
    method Richest(ids: set<Int64>) returns (top: Int64)
      requires ids != {} && ids <= accounts.Keys
      ensures top in ids
      ensures forall u :: u in ids ==> accounts[u].balance <= accounts[top].balance
    {
      top :| top in ids;
      var todo := ids - {top};
      while todo != {}
        invariant todo <= ids && top in ids
        invariant forall u :: u in ids - todo ==> accounts[u].balance <= accounts[top].balance
        decreases todo
      {
        var u :| u in todo;
        if accounts[u].balance > accounts[top].balance {
          top := u;
        }
        todo := todo - {u};
      }
    }
  }
}
