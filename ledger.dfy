/**
 * The ledger: every account's balance and currency, by id. Balance writes, the move of a
 * transfer, and the total money held, used to state conservation of money.
 */
module Ledger {
  import opened Common
  import opened AccountModel

  /** The ledger with the balance of `id` set to `balance`; its currency and every other account are kept. */
  function WithBalance<K>(views: map<K, AccountView>, id: K, balance: Cents): map<K, AccountView>
    requires id in views
  {
    views[id := views[id].(balance := balance)]
  }

  /** The sum of the balances of the accounts named in `ids`. */
  ghost function TotalOver<K>(views: map<K, AccountView>, ids: set<K>): int
    requires ids <= views.Keys
    decreases ids
  {
    if ids == {} then 0
    else
      var id :| id in ids;
      views[id].balance + TotalOver(views, ids - {id})
  }

  /** The sum of every balance in the ledger. */
  ghost function Total<K>(views: map<K, AccountView>): int {
    TotalOver(views, views.Keys)
  }

  /** Any account of the set can be taken out first: the sum does not depend on the order. */
  lemma {:induction false} TotalOverRemove<K>(views: map<K, AccountView>, ids: set<K>, k: K)
    requires ids <= views.Keys && k in ids
    ensures TotalOver(views, ids) == views[k].balance + TotalOver(views, ids - {k})
    decreases ids
  {
    var id :| id in ids && TotalOver(views, ids) == views[id].balance + TotalOver(views, ids - {id});
    if id != k {
      TotalOverRemove(views, ids - {id}, k);
      TotalOverRemove(views, ids - {k}, id);
      assert ids - {id} - {k} == ids - {k} - {id};
    }
  }

  /** Two ledgers that agree on the balances of `ids` have the same total over `ids`. */
  lemma {:induction false} TotalOverAgree<K>(v1: map<K, AccountView>, v2: map<K, AccountView>, ids: set<K>)
    requires ids <= v1.Keys && ids <= v2.Keys
    requires forall id | id in ids :: v1[id].balance == v2[id].balance
    ensures TotalOver(v1, ids) == TotalOver(v2, ids)
    decreases ids
  {
    if ids != {} {
      var id :| id in ids && TotalOver(v1, ids) == v1[id].balance + TotalOver(v1, ids - {id});
      TotalOverRemove(v2, ids, id);
      TotalOverAgree(v1, v2, ids - {id});
    }
  }

  /** Replacing one account's view changes the total by exactly the change of its balance. */
  lemma {:induction false} TotalAfterUpdate<K>(views: map<K, AccountView>, k: K, w: AccountView)
    requires k in views
    ensures Total(views[k := w]) == Total(views) - views[k].balance + w.balance
  {
    var after := views[k := w];
    assert after.Keys == views.Keys;
    TotalOverRemove(views, views.Keys, k);
    TotalOverRemove(after, after.Keys, k);
    TotalOverAgree(views, after, views.Keys - {k});
  }

  /** The ledger after `amount` moves from `fromId` to `toId`: the source debited, then the destination credited. */
  function Moved<K>(views: map<K, AccountView>, fromId: K, toId: K, amount: Cents): map<K, AccountView>
    requires fromId in views && toId in views && fromId != toId
  {
    WithBalance(WithBalance(views, fromId, views[fromId].balance - amount), toId, views[toId].balance + amount)
  }

  /**
   * A move touches exactly the two balances: the source goes down by `amount`, the
   * destination up by `amount`, and every currency and every other account is as it was.
   */
  lemma MovedChangesOnlyTwoBalances<K>(views: map<K, AccountView>, fromId: K, toId: K, amount: Cents)
    requires fromId in views && toId in views && fromId != toId
    ensures var r := Moved(views, fromId, toId, amount);
      && r.Keys == views.Keys
      && r[fromId].balance == views[fromId].balance - amount
      && r[toId].balance == views[toId].balance + amount
      && (forall id | id in views :: r[id].currency == views[id].currency)
      && (forall id | id in views && id != fromId && id != toId :: r[id] == views[id])
  {
  }

  /** Moving `amount` between two accounts leaves the ledger's total unchanged: no money is created or destroyed. */
  lemma {:induction false} MoveConservesTotal<K>(views: map<K, AccountView>, fromId: K, toId: K, amount: Cents)
    requires fromId in views && toId in views && fromId != toId
    ensures Total(Moved(views, fromId, toId, amount)) == Total(views)
  {
    var debited := WithBalance(views, fromId, views[fromId].balance - amount);
    TotalAfterUpdate(views, fromId, debited[fromId]);
    TotalAfterUpdate(debited, toId, debited[toId].(balance := debited[toId].balance + amount));
  }

  /**
   * Writing back the two old balances undoes a transfer that stopped after the debit or
   * after the credit: the ledger is the one before it began.
   */
  lemma RollbackRestores<K>(views: map<K, AccountView>, fromId: K, toId: K, amount: Cents)
    requires fromId in views && toId in views && fromId != toId
    ensures var debited := WithBalance(views, fromId, views[fromId].balance - amount);
      WithBalance(WithBalance(debited, fromId, views[fromId].balance), toId, views[toId].balance) == views
    ensures WithBalance(WithBalance(Moved(views, fromId, toId, amount), fromId, views[fromId].balance), toId, views[toId].balance) == views
  {
  }
}
