/** The `accounts` entity: a row that JPA lifecycle callbacks and the ledger update in place. */
module AccountModel {
  import opened Common

  /** The currency a new account gets when none is given. */
  const DefaultCurrency: string := "USD"

  /** What the transfer engine reads of a stored account: its balance and its currency. */
  datatype AccountView = AccountView(balance: Cents, currency: string)

  class Account {
    var accountId: string
    var balance: Option<Cents>
    var currency: Option<string>
    var createdAt: Option<Timestamp>
    var updatedAt: Option<Timestamp>

    /** `Account.builder()...build()`: the given fields, no timestamps until the first persist. */
    constructor (accountId: string, balance: Option<Cents>, currency: Option<string>)
      ensures this.accountId == accountId && this.balance == balance && this.currency == currency
      ensures createdAt == None && updatedAt == None
    {
      this.accountId := accountId;
      this.balance := balance;
      this.currency := currency;
      createdAt := None;
      updatedAt := None;
    }

    /** Every non-null column is filled, as after the first persist. */
    predicate Persisted()
      reads this
    {
      balance.Some? && currency.Some? && currency.value != "" && createdAt.Some? && updatedAt.Some?
    }

    /** The balance and currency of a persisted account. */
    function View(): AccountView
      reads this
      requires Persisted()
    {
      AccountView(balance.value, currency.value)
    }

    /**
     * `@PrePersist onCreate`: both timestamps are set to the clock reading, a null balance
     * becomes zero and a null or empty currency becomes "USD"; everything else is kept.
     */
    method OnCreate(now: Timestamp)
      modifies this
      ensures createdAt == Some(now) && updatedAt == Some(now)
      ensures balance == if old(balance).None? then Some(0) else old(balance)
      ensures currency == if old(currency) == None || old(currency) == Some("") then Some(DefaultCurrency) else old(currency)
      ensures accountId == old(accountId)
      ensures Persisted()
    {
      createdAt := Some(now);
      updatedAt := Some(now);
      if balance.None? {
        balance := Some(0);
      }
      if currency.None? || currency.value == "" {
        currency := Some(DefaultCurrency);
      }
    }

    /** `@PreUpdate onUpdate`: only `updatedAt` moves; `createdAt` is left as it was. */
    method OnUpdate(now: Timestamp)
      modifies this`updatedAt
      ensures updatedAt == Some(now) && createdAt == old(createdAt)
    {
      updatedAt := Some(now);
    }

    /**
     * `hasSufficientBalance`: the account can give up `amount` exactly when doing so
     * leaves a balance that is not negative, so a balance equal to the amount suffices.
     */
    predicate HasSufficientBalance(amount: Cents)
      reads this
      requires balance.Some?
    {
      balance.value >= amount
    }
  }
}
