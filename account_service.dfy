/**
 * The ledger operations of `AccountService`: plain and locking reads, the signed balance
 * update, and account creation, over the store of account rows.
 */
module AccountServiceModel {
  import opened Common
  import opened Exceptions
  import opened AccountModel
  import opened Ledger

  /** The message of the `IllegalStateException` for an update that would overdraw an account. */
  function NegativeBalanceMessage(accountId: string): string {
    "Balance update would result in negative balance for account " + accountId
  }

  /**
   * The refusal rule of `updateAccountBalance`: adding `delta` to the stored balance of
   * `accountId` would leave it below zero.
   */
  predicate UpdateRefused(views: map<string, AccountView>, accountId: string, delta: Cents)
    requires accountId in views
  {
    views[accountId].balance + delta < 0
  }

  /** The message of the `IllegalArgumentException` for a negative opening balance. */
  const NegativeInitialBalanceMessage: string := "Initial balance cannot be negative"

  /**
   * A stored row: it sits under its own id, every column is filled, it shows the balance and
   * currency of `view`, and that balance is not negative.
   */
  predicate RowShows(account: Account, accountId: string, view: AccountView)
    reads account
  {
    && account.accountId == accountId && account.Persisted()
    && account.balance == Some(view.balance) && account.currency == Some(view.currency)
    && view.balance >= 0
  }

  class AccountService {
    /** The account rows, keyed by `accountId`. */
    var accounts: map<string, Account>
    /** The balance and currency of every row, by id: the ledger as the engine sees it. */
    ghost var views: map<string, AccountView>
    /** The footprint: every account object the store holds. */
    ghost var rows: set<Account>
    /** The order in which rows were read with `PESSIMISTIC_WRITE` (lock acquisitions). */
    ghost var lockLog: seq<string>

    /**
     * Every row is stored under its own id, has every column filled, shows the balance and
     * currency `views` records, and holds a balance that is not negative.
     */
    ghost predicate Valid()
      reads this`accounts, this`views, this`rows, rows
    {
      && (forall id | id in accounts :: accounts[id] in rows)
      && views.Keys == accounts.Keys
      && forall id {:trigger RowShows(accounts[id], id, views[id])} | id in accounts :: RowShows(accounts[id], id, views[id])
    }

    /** An empty store. */
    constructor ()
      ensures Valid() && accounts == map[] && views == map[] && rows == {} && lockLog == []
    {
      accounts := map[];
      views := map[];
      rows := {};
      lockLog := [];
    }

    /**
     * `getAccountById`: the stored account when the id is present, whose id is the one asked
     * for and whose balance and currency are those of the ledger; `AccountNotFound` naming the
     * id when it is absent.
     */
    function GetAccountById(accountId: string): (r: Result<Account, Error>)
      reads this`accounts, this`views, this`rows, rows
      requires Valid()
      ensures r.Ok? <==> accountId in views
      ensures r.Ok? ==> && r.value == accounts[accountId] && r.value.accountId == accountId
                        && r.value.Persisted() && r.value.View() == views[accountId]
      ensures r.Err? ==> r.error == AccountNotFound(accountId)
    {
      if accountId in accounts then
        StoredRow(accountId);
        Ok(accounts[accountId])
      else
        Err(AccountNotFound(accountId))
    }

    /** `accountExists`: true exactly when the plain read of the id succeeds. */
    function AccountExists(accountId: string): (r: bool)
      reads this`accounts, this`views, this`rows, rows
      requires Valid()
      ensures r <==> GetAccountById(accountId).Ok?
      ensures !r <==> GetAccountById(accountId) == Err(AccountNotFound(accountId))
    {
      accountId in accounts
    }

    /**
     * `getAccountByIdWithLock`: the same answer as the plain read; a found row is locked
     * (appended to the lock log), a missing one locks nothing.
     */
    method GetAccountByIdWithLock(accountId: string) returns (r: Result<Account, Error>)
      requires Valid()
      modifies this`lockLog
      ensures r == GetAccountById(accountId)
      ensures lockLog == old(lockLog) + (if r.Ok? then [accountId] else [])
    {
      r := GetAccountById(accountId);
      if r.Ok? {
        lockLog := lockLog + [accountId];
      }
    }

    /**
     * `updateAccountBalance`: after a locking read, a result below zero is refused with
     * `IllegalState` and nothing changes; otherwise the balance becomes old + delta (the
     * delta may be negative, and a result of exactly zero is allowed) and is saved, see
     * `SaveBalance`.
     */
    method UpdateAccountBalance(accountId: string, delta: Cents, now: Timestamp, saveFault: Option<string>)
      returns (err: Option<Error>)
      requires Valid()
      modifies this`lockLog, this`views, rows`balance, rows`updatedAt
      ensures Valid() && accounts == old(accounts)
      ensures err.Some? ==> err.value.IsUpdateFailure()
      ensures accountId !in accounts ==>
        err == Some(AccountNotFound(accountId)) && lockLog == old(lockLog) && views == old(views) && Stamps() == old(Stamps())
      ensures accountId in accounts ==> lockLog == old(lockLog) + [accountId]
      ensures accountId in accounts && UpdateRefused(old(views), accountId, delta) ==>
        && err == Some(IllegalState(NegativeBalanceMessage(accountId)))
        && views == old(views) && Stamps() == old(Stamps())
      ensures accountId in accounts && !UpdateRefused(old(views), accountId, delta) ==>
        && views == WithBalance(old(views), accountId, old(views[accountId].balance) + delta)
        && err == (if saveFault.None? then None else Some(StorageFailure(saveFault.value)))
        && Stamps() == if saveFault.None? then old(Stamps())[accountId := Some(now)] else old(Stamps())
    {
      var found := GetAccountByIdWithLock(accountId);
      if found.Err? {
        return Some(found.error);
      }
      var newBalance := found.value.balance.value + delta;
      assert newBalance == views[accountId].balance + delta;
      if newBalance < 0 {
        return Some(IllegalState(NegativeBalanceMessage(accountId)));
      }
      err := SaveBalance(accountId, newBalance, now, saveFault);
    }

    /**
     * `account.setBalance(newBalance)` then `accountRepository.save(account)`: the row shows
     * the new balance and the flush refreshes `updatedAt`. When the save fails (`saveFault`)
     * the new balance is already set on the managed row, `updatedAt` is not refreshed, and the
     * failure is returned for the enclosing atomic scope to roll back.
     */
    method SaveBalance(accountId: string, newBalance: Cents, now: Timestamp, saveFault: Option<string>)
      returns (err: Option<Error>)
      requires Valid() && accountId in accounts && newBalance >= 0
      modifies this`views, rows`balance, rows`updatedAt
      ensures Valid()
      ensures views == WithBalance(old(views), accountId, newBalance)
      ensures err == (if saveFault.None? then None else Some(StorageFailure(saveFault.value)))
      ensures Stamps() == if saveFault.None? then old(Stamps())[accountId := Some(now)] else old(Stamps())
    {
      StoredRow(accountId);
      var account := accounts[accountId];
      account.balance := Some(newBalance);
      if saveFault.Some? {
        err := Some(StorageFailure(saveFault.value));
      } else {
        account.OnUpdate(now);
        err := None;
      }
      views := WithBalance(views, accountId, newBalance);
      OthersUnchanged(accountId);
      OtherStampsKept(accountId);
    }

    /**
     * The rollback of one row by the enclosing `@Transactional` scope: its balance and
     * `updatedAt` return to a snapshot taken earlier in the same scope.
     */
    method RollbackRow(accountId: string, balance: Cents, updatedAt: Option<Timestamp>)
      requires Valid() && accountId in accounts && balance >= 0 && updatedAt.Some?
      modifies this`views, rows`balance, rows`updatedAt
      ensures Valid()
      ensures views == WithBalance(old(views), accountId, balance)
      ensures Stamps() == old(Stamps())[accountId := updatedAt]
    {
      StoredRow(accountId);
      var account := accounts[accountId];
      account.balance := Some(balance);
      account.updatedAt := updatedAt;
      views := WithBalance(views, accountId, balance);
      OthersUnchanged(accountId);
      OtherStampsKept(accountId);
    }

    /**
     * Proof step shared by the row writes: when only the row under `accountId` was written,
     * and it shows its new view, the store is still valid.
     */
    twostate lemma OthersUnchanged(accountId: string)
      requires old(Valid()) && accountId in accounts && accountId in views
      requires accounts == old(accounts) && rows == old(rows)
      requires unchanged(rows - {accounts[accountId]})
      requires views == WithBalance(old(views), accountId, views[accountId].balance)
      requires RowShows(accounts[accountId], accountId, views[accountId])
      ensures Valid()
    {
      forall id | id in accounts
        ensures RowShows(accounts[id], id, views[id])
      {
        if id != accountId {
          assert old(RowShows(accounts[id], id, views[id]) && RowShows(accounts[accountId], accountId, views[accountId]));
        }
      }
    }

    /**
     * Proof step shared by the row writes: when only the row under `accountId` was written,
     * every other row keeps its `updatedAt`.
     */
    twostate lemma OtherStampsKept(accountId: string)
      requires old(Valid()) && Valid() && accountId in accounts
      requires accounts == old(accounts) && rows == old(rows)
      requires unchanged(rows - {accounts[accountId]})
      ensures Stamps() == old(Stamps())[accountId := accounts[accountId].updatedAt]
    {
      forall id | id in accounts && id != accountId
        ensures accounts[id].updatedAt == old(accounts[id].updatedAt)
      {
        assert old(RowShows(accounts[id], id, views[id]) && RowShows(accounts[accountId], accountId, views[accountId]));
      }
    }

    /**
     * Proof step for account creation: when a row is added under a new id and no stored row
     * was written, every other row keeps its `updatedAt`.
     */
    twostate lemma StampsAfterInsert(newId: string)
      requires old(Valid()) && Valid() && newId !in old(accounts) && newId in accounts
      requires accounts == old(accounts)[newId := accounts[newId]]
      requires unchanged(old(rows))
      ensures Stamps() == old(Stamps())[newId := accounts[newId].updatedAt]
    {
      forall id | id in old(accounts)
        ensures accounts[id].updatedAt == old(accounts[id].updatedAt)
      {
        assert old(accounts[id] in rows);
      }
    }

    /** The `updatedAt` column of every stored row, by id. */
    ghost function Stamps(): map<string, Option<Timestamp>>
      reads this`accounts, this`views, this`rows, rows
      requires Valid()
    {
      map id | id in accounts :: accounts[id].updatedAt
    }

    /** The store's invariant at one id: the row stored there shows its view. */
    lemma StoredRow(accountId: string)
      requires Valid() && accountId in accounts
      ensures RowShows(accounts[accountId], accountId, views[accountId])
    {
    }

    /**
     * `createAccount`: a null opening balance counts as zero and a negative one is refused
     * with `IllegalArgument`, adding nothing; a null or empty currency becomes "USD"; the new
     * account is stored under the fresh id with exactly that balance, and existing accounts
     * are left as they were. `newId` is the UUID the source generates.
     */
    method CreateAccount(initialBalance: Option<Cents>, currency: Option<string>, newId: string, now: Timestamp)
      returns (r: Result<Account, Error>)
      requires Valid() && newId !in accounts
      modifies this`accounts, this`views, this`rows
      ensures Valid()
      ensures var balance := if initialBalance.None? then 0 else initialBalance.value;
              var code := if currency.None? || currency.value == "" then DefaultCurrency else currency.value;
              && (balance < 0 ==>
                    && r == Err(IllegalArgument(NegativeInitialBalanceMessage))
                    && accounts == old(accounts) && views == old(views) && rows == old(rows))
              && (balance >= 0 ==>
                    && r.Ok? && fresh(r.value)
                    && accounts == old(accounts)[newId := r.value] && rows == old(rows) + {r.value}
                    && views == old(views)[newId := AccountView(balance, code)]
                    && r.value.createdAt == Some(now) && r.value.updatedAt == Some(now)
                    && Stamps() == old(Stamps())[newId := Some(now)])
    {
      var balance := if initialBalance.None? then 0 else initialBalance.value;
      if balance < 0 {
        return Err(IllegalArgument(NegativeInitialBalanceMessage));
      }
      var code := if currency.None? || currency.value == "" then DefaultCurrency else currency.value;
      var account := new Account(newId, Some(balance), Some(code));
      account.OnCreate(now);
      accounts := accounts[newId := account];
      rows := rows + {account};
      views := views[newId := AccountView(balance, code)];
      forall id | id in accounts
        ensures RowShows(accounts[id], id, views[id])
      {
        if id != newId {
          assert old(RowShows(accounts[id], id, views[id]));
        }
      }
      StampsAfterInsert(newId);
      r := Ok(account);
    }
  }

  /**
   * `hasSufficientBalance` agrees with the update's refusal rule: an account has enough for
   * `amount` exactly when debiting it through `UpdateAccountBalance` is not refused.
   */
  lemma SufficientIffDebitAccepted(s: AccountService, accountId: string, amount: Cents)
    requires s.Valid() && accountId in s.accounts
    ensures s.accounts[accountId].balance == Some(s.views[accountId].balance)
    ensures s.accounts[accountId].HasSufficientBalance(amount) <==> !UpdateRefused(s.views, accountId, -amount)
  {
    s.StoredRow(accountId);
  }
}
