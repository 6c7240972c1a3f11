/**
 * The transfer engine, `TransferService.transferFunds`: request validation, locking reads of
 * both accounts, the funds, same-account and currency checks, the PENDING audit record, the
 * two balance updates, and the final SUCCESS or FAILED status, all inside one atomic scope.
 */
module TransferServiceModel {
  import opened Common
  import opened JavaStrings
  import opened Exceptions
  import opened AccountModel
  import opened TransactionModel
  import opened TransferRequestModel
  import opened TransferResponseModel
  import opened Ledger
  import opened AccountServiceModel

  const NullRequestMessage: string := "Transfer request cannot be null"
  const MustBeDifferentMessage: string := "Source and destination accounts must be different"
  const NonPositiveAmountMessage: string := "Transfer amount must be greater than zero"
  const SourceRequiredMessage: string := "Source account ID is required"
  const DestinationRequiredMessage: string := "Destination account ID is required"
  const SameAccountMessage: string := "Source and destination accounts cannot be the same"
  const TransferFailedPrefix: string := "Transfer failed: "

  /** The text of the `InvalidTransferException` for accounts held in different currencies. */
  function CurrencyMismatchMessage(fromCurrency: string, toCurrency: string): string {
    "Currency mismatch: " + fromCurrency + " vs " + toCurrency + ". Cross-currency transfers not supported."
  }

  /** The fields `validateTransferRequest` passes on: both ids, a positive amount, the description. */
  predicate Accepts(request: Option<TransferRequest>) {
    && request.Some? && request.value.IsValidTransfer()
    && request.value.amount.Some? && request.value.amount.value > 0
    && !IsBlank(request.value.fromAccountId.value) && !IsBlank(request.value.toAccountId.value)
  }

  /**
   * `validateTransferRequest`: the request passes exactly when it is present, names two
   * different accounts, carries a positive amount and neither id is blank; otherwise the
   * first failing check, in source order, gives an `InvalidTransfer` without a cause.
   */
  function ValidateTransferRequest(request: Option<TransferRequest>): (r: Option<Error>)
    ensures r.None? <==> Accepts(request)
    ensures r.Some? ==> r.value.InvalidTransfer? && r.value.cause.None?
    ensures r.None? ==> request.value.fromAccountId.value != request.value.toAccountId.value
  {
    if request.None? then Some(InvalidTransfer(NullRequestMessage, None))
    else
      var req := request.value;
      if !req.IsValidTransfer() then Some(InvalidTransfer(MustBeDifferentMessage, None))
      else if req.amount.None? || req.amount.value <= 0 then Some(InvalidTransfer(NonPositiveAmountMessage, None))
      else if req.fromAccountId.None? || IsBlank(req.fromAccountId.value) then Some(InvalidTransfer(SourceRequiredMessage, None))
      else if req.toAccountId.None? || IsBlank(req.toAccountId.value) then Some(InvalidTransfer(DestinationRequiredMessage, None))
      else None
  }

  /** A null request is refused as null, before any other check. */
  lemma NullRequestRejected()
    ensures ValidateTransferRequest(None) == Some(InvalidTransfer(NullRequestMessage, None))
  {
  }

  /**
   * A request with a null id fails the `isValidTransfer` check and so is reported as
   * "must be different", never as "is required", whatever its amount.
   */
  lemma NullIdReportedAsNotDifferent(request: TransferRequest)
    requires request.fromAccountId.None? || request.toAccountId.None?
    ensures ValidateTransferRequest(Some(request)) == Some(InvalidTransfer(MustBeDifferentMessage, None))
  {
  }

  /** A self-transfer is refused as "must be different" whatever its amount. */
  lemma SelfTransferRejected(request: TransferRequest)
    requires request.fromAccountId.Some? && request.fromAccountId == request.toAccountId
    ensures ValidateTransferRequest(Some(request)) == Some(InvalidTransfer(MustBeDifferentMessage, None))
  {
  }

  /** With two different ids, a zero, negative or missing amount is the next thing refused. */
  lemma NonPositiveAmountRejected(request: TransferRequest)
    requires request.IsValidTransfer()
    requires request.amount.None? || request.amount.value <= 0
    ensures ValidateTransferRequest(Some(request)) == Some(InvalidTransfer(NonPositiveAmountMessage, None))
  {
  }

  /** A blank source id is refused once the ids differ and the amount is positive. */
  lemma BlankSourceRejected(request: TransferRequest)
    requires request.IsValidTransfer() && request.amount.Some? && request.amount.value > 0
    requires IsBlank(request.fromAccountId.value)
    ensures ValidateTransferRequest(Some(request)) == Some(InvalidTransfer(SourceRequiredMessage, None))
  {
  }

  /** A blank destination id is refused last, after the source id has passed. */
  lemma BlankDestinationRejected(request: TransferRequest)
    requires request.IsValidTransfer() && request.amount.Some? && request.amount.value > 0
    requires !IsBlank(request.fromAccountId.value) && IsBlank(request.toAccountId.value)
    ensures ValidateTransferRequest(Some(request)) == Some(InvalidTransfer(DestinationRequiredMessage, None))
  {
    assert !(request.fromAccountId.None? || IsBlank(request.fromAccountId.value));
  }

  /**
   * A request that meets every declared field constraint passes the engine's own validation
   * unless it names the same account twice, and then it is refused as "must be different".
   */
  lemma {:induction false} ConstrainedRequestValidation(request: TransferRequest)
    requires SatisfiesConstraints(request)
    ensures ValidateTransferRequest(Some(request)).None? <==>
            request.fromAccountId.value != request.toAccountId.value
    ensures request.fromAccountId.value == request.toAccountId.value ==>
            ValidateTransferRequest(Some(request)) == Some(InvalidTransfer(MustBeDifferentMessage, None))
  {
    PatternIdIsNotBlank(request.fromAccountId.value);
    PatternIdIsNotBlank(request.toAccountId.value);
  }

  /**
   * The entry of `transferFunds` (TransactionService.java:42-47) as written: the `log.info`
   * call evaluates `request.getFromAccountId()` before `validateTransferRequest` runs, so a
   * null request raises `NullPointerException` there; any other request reaches the validation.
   */
  function EntryAsWritten(request: Option<TransferRequest>): (r: Option<Error>)
    ensures r == Some(NullPointer) <==> request.None?
    ensures request.Some? ==> r == ValidateTransferRequest(request)
  {
    if request.None? then Some(NullPointer) else ValidateTransferRequest(request)
  }

  /**
   * The null check in `validateTransferRequest` (TransactionService.java:110) is unreachable as
   * written: a null request ends in a `NullPointerException` from the log statement, not in the
   * `InvalidTransfer` the check was written to raise, which is what `ValidateTransferRequest`
   * gives.
   */
  lemma NullRequestNeverReachesNullCheck()
    ensures EntryAsWritten(None) == Some(NullPointer)
    ensures ValidateTransferRequest(None) == Some(InvalidTransfer(NullRequestMessage, None))
    ensures EntryAsWritten(None) != ValidateTransferRequest(None)
  {
  }

  /**
   * `validateSufficientFunds`: nothing when the account has enough for the amount, else
   * `InsufficientFunds` carrying the account id, its balance and the amount asked for.
   */
  function ValidateSufficientFunds(account: Account, amount: Cents): (r: Option<Error>)
    reads account
    requires account.balance.Some?
  {
    if !account.HasSufficientBalance(amount) then
      Some(InsufficientFunds(account.accountId, account.balance.value, amount))
    else None
  }

  /**
   * On a stored row, the funds check fails exactly when `updateAccountBalance` would refuse
   * to debit the amount, and the failure names the row's id, its ledger balance and the amount.
   */
  lemma ShortfallIffDebitRefused(s: AccountService, accountId: string, amount: Cents)
    requires s.Valid() && accountId in s.accounts
    ensures s.accounts[accountId].balance.Some?
    ensures ValidateSufficientFunds(s.accounts[accountId], amount).Some? <==> UpdateRefused(s.views, accountId, -amount)
    ensures ValidateSufficientFunds(s.accounts[accountId], amount).Some? ==>
      ValidateSufficientFunds(s.accounts[accountId], amount).value
        == InsufficientFunds(accountId, s.views[accountId].balance, amount)
  {
    s.StoredRow(accountId);
  }

  /** Where the checks before the audit record leave a transfer. */
  datatype Precheck = Rejected(error: Error) | Accepted(fromId: string, toId: string, amount: Cents)

  /**
   * The decision `transferFunds` reaches before writing anything, over the ledger's balances
   * and currencies: validation, then the source and the destination must exist, then the
   * funds check, then the same-account check, then the currency check.
   */
  function Decide(request: Option<TransferRequest>, views: map<string, AccountView>): (p: Precheck)
    ensures p.Accepted? <==>
      && Accepts(request)
      && request.value.fromAccountId.value in views && request.value.toAccountId.value in views
      && views[request.value.fromAccountId.value].balance >= request.value.amount.value
      && views[request.value.fromAccountId.value].currency == views[request.value.toAccountId.value].currency
    ensures p.Accepted? ==>
      && p.fromId == request.value.fromAccountId.value && p.toId == request.value.toAccountId.value
      && p.amount == request.value.amount.value
      && p.fromId != p.toId && p.amount > 0 && p.fromId in views && p.toId in views
      && views[p.fromId].balance >= p.amount && views[p.fromId].currency == views[p.toId].currency
    ensures !Accepts(request) ==> p == Rejected(ValidateTransferRequest(request).value)
  {
    match ValidateTransferRequest(request)
    case Some(e) => Rejected(e)
    case None =>
      DecideAccounts(request.value.fromAccountId.value, request.value.toAccountId.value, request.value.amount.value, views)
  }

  /**
   * The checks after validation, on the two ids and the amount: the source, then the
   * destination, must exist; the source must hold the amount; the ids must differ; the
   * currencies must match. Only a transfer passing all of them is accepted, unchanged.
   */
  function DecideAccounts(fromId: string, toId: string, amount: Cents, views: map<string, AccountView>): (p: Precheck)
    ensures p.Accepted? <==>
      && fromId in views && toId in views && views[fromId].balance >= amount
      && fromId != toId && views[fromId].currency == views[toId].currency
    ensures p.Accepted? ==> p == Accepted(fromId, toId, amount)
    ensures fromId !in views ==> p == Rejected(AccountNotFound(fromId))
  {
    if fromId !in views then Rejected(AccountNotFound(fromId))
    else if toId !in views then Rejected(AccountNotFound(toId))
    else if views[fromId].balance < amount then Rejected(InsufficientFunds(fromId, views[fromId].balance, amount))
    else if fromId == toId then Rejected(InvalidTransfer(SameAccountMessage, None))
    else if views[fromId].currency != views[toId].currency then
      Rejected(InvalidTransfer(CurrencyMismatchMessage(views[fromId].currency, views[toId].currency), None))
    else Accepted(fromId, toId, amount)
  }

  /** A missing source is reported before the destination is looked at. */
  lemma MissingSourceReportedFirst(request: TransferRequest, views: map<string, AccountView>)
    requires Accepts(Some(request)) && request.fromAccountId.value !in views
    ensures Decide(Some(request), views) == Rejected(AccountNotFound(request.fromAccountId.value))
  {
  }

  /** A missing destination is reported when the source exists. */
  lemma MissingDestinationReported(request: TransferRequest, views: map<string, AccountView>)
    requires Accepts(Some(request)) && request.fromAccountId.value in views && request.toAccountId.value !in views
    ensures Decide(Some(request), views) == Rejected(AccountNotFound(request.toAccountId.value))
  {
  }

  /**
   * When the source is short of funds the result is `InsufficientFunds` with the source id,
   * its balance and the amount, even when the currencies also differ.
   */
  lemma InsufficientFundsWinsOverCurrency(request: TransferRequest, views: map<string, AccountView>)
    requires Accepts(Some(request))
    requires request.fromAccountId.value in views && request.toAccountId.value in views
    requires views[request.fromAccountId.value].balance < request.amount.value
    ensures Decide(Some(request), views) ==
      Rejected(InsufficientFunds(request.fromAccountId.value, views[request.fromAccountId.value].balance, request.amount.value))
  {
  }

  /** Accounts in different currencies with enough funds are refused as a currency mismatch. */
  lemma CurrencyMismatchRejected(request: TransferRequest, views: map<string, AccountView>)
    requires Accepts(Some(request))
    requires request.fromAccountId.value in views && request.toAccountId.value in views
    requires views[request.fromAccountId.value].balance >= request.amount.value
    requires views[request.fromAccountId.value].currency != views[request.toAccountId.value].currency
    ensures Decide(Some(request), views) == Rejected(InvalidTransfer(
      CurrencyMismatchMessage(views[request.fromAccountId.value].currency, views[request.toAccountId.value].currency), None))
  {
  }

  /**
   * The same-account check in `transferFunds` (TransactionService.java:57) can never fire:
   * validation has already refused equal ids, so no decision is ever the "cannot be the same"
   * rejection.
   */
  lemma SameAccountCheckUnreachable(request: Option<TransferRequest>, views: map<string, AccountView>)
    ensures Decide(request, views) != Rejected(InvalidTransfer(SameAccountMessage, None))
  {
  }

  /**
   * An accepted transfer's two balance updates are never refused: the debit leaves the source
   * at or above zero and the credit raises a balance that is not negative. Only a storage
   * failure can reach the catch block.
   */
  lemma AcceptedUpdatesNeverOverdraw(request: Option<TransferRequest>, views: map<string, AccountView>)
    requires forall id | id in views :: views[id].balance >= 0
    requires Decide(request, views).Accepted?
    ensures var p := Decide(request, views);
            views[p.fromId].balance + -p.amount >= 0 && views[p.toId].balance + p.amount >= 0
  {
  }

  /** The locks `transferFunds` has taken when it stops before the audit record, in order. */
  function LocksTaken(request: Option<TransferRequest>, ids: set<string>): (locks: seq<string>)
  {
    if !Accepts(request) then []
    else RequestOrderLocks(request.value.fromAccountId.value, request.value.toAccountId.value, ids)
  }

  /**
   * The locking reads in request order: the source first, and the destination only when the
   * source exists; a missing row locks nothing.
   */
  function RequestOrderLocks(fromId: string, toId: string, ids: set<string>): (locks: seq<string>)
  {
    if fromId !in ids then []
    else if toId !in ids then [fromId]
    else [fromId, toId]
  }

  /** Storage failures injected into the saves inside the try block, in the order they run. */
  datatype StorageFaults = StorageFaults(debit: Option<string>, credit: Option<string>, markSuccess: Option<string>)

  /** The storage failure the try block meets first, if any. */
  function FirstFault(faults: StorageFaults): (r: Option<string>)
    ensures r.None? <==> faults.debit.None? && faults.credit.None? && faults.markSuccess.None?
    ensures faults.debit.Some? ==> r == faults.debit
  {
    if faults.debit.Some? then faults.debit
    else if faults.credit.Some? then faults.credit
    else faults.markSuccess
  }

  /** The columns of a `transactions` row. */
  datatype RecordView = RecordView(transactionId: string, fromId: string, toId: string, amount: Cents,
                                   description: Option<string>, status: TxStatus, createdAt: Timestamp)

  /** The record object `t` holds exactly the columns of `v`, with both dates at `v.createdAt`. */
  predicate Shows(t: Transaction, v: RecordView)
    reads t
  {
    && t.transactionId == v.transactionId && t.fromAccountId == v.fromId && t.toAccountId == v.toId
    && t.amount == v.amount && t.description == v.description && t.status == Some(v.status)
    && t.transactionDate == Some(v.createdAt) && t.createdAt == Some(v.createdAt)
  }

  /**
   * What one call of `transferFunds` does, as values: its result, the ledger it leaves, the
   * locks it took, the saves of its record (with the status each wrote) and the record it
   * commits, if any.
   */
  datatype Outcome = Outcome(result: Result<TransferResponse, Error>, views: map<string, AccountView>,
                             locks: seq<string>, saves: seq<(string, TxStatus)>, record: Option<RecordView>)

  /**
   * An accepted transfer from the `Pending` save on: the debit and credit locks, then
   * either the whole move with a committed `Success` record and the success response, or,
   * at the first storage failure, a rolled-back ledger, no record and the wrapped failure.
   */
  function Settle(fromId: string, toId: string, amount: Cents, description: Option<string>,
                  views: map<string, AccountView>, transactionId: string, now: Timestamp, faults: StorageFaults): Outcome
    requires fromId in views && toId in views && fromId != toId
  {
    var locks := [fromId] + (if faults.debit.None? then [toId] else []);
    match FirstFault(faults)
    case None =>
      Outcome(Ok(SuccessResponse(Some(transactionId), Some(fromId), Some(toId), Some(amount), Some(SuccessDefaultMessage), now)),
              Moved(views, fromId, toId, amount), locks, [(transactionId, Pending), (transactionId, Success)],
              Some(RecordView(transactionId, fromId, toId, amount, description, Success, now)))
    case Some(m) =>
      Outcome(Err(InvalidTransfer(TransferFailedPrefix + m, Some(StorageFailure(m)))),
              views, locks, [(transactionId, Pending), (transactionId, Failed)], None)
  }

  /**
   * The whole of `transferFunds` as values: a rejected transfer returns its error with the
   * locks of the reads that ran and nothing else; an accepted one takes both locks, then
   * settles.
   */
  function Transfer(request: Option<TransferRequest>, views: map<string, AccountView>,
                    transactionId: string, now: Timestamp, faults: StorageFaults): Outcome
  {
    match Decide(request, views)
    case Rejected(e) => Outcome(Err(e), views, LocksTaken(request, views.Keys), [], None)
    case Accepted(fromId, toId, amount) =>
      var o := Settle(fromId, toId, amount, request.value.description, views, transactionId, now, faults);
      o.(locks := [fromId, toId] + o.locks)
  }

  /**
   * A transfer the checks reject (a null or malformed request, a missing account, too little
   * money, a currency mismatch) returns their error, takes no lock unless the request was
   * well formed, changes no balance and never saves a record.
   */
  lemma RejectedTransferChangesNothing(request: Option<TransferRequest>, views: map<string, AccountView>,
                                       transactionId: string, now: Timestamp, faults: StorageFaults)
    requires Decide(request, views).Rejected?
    ensures var o := Transfer(request, views, transactionId, now, faults);
            && o.result == Err(Decide(request, views).error)
            && o.views == views && o.saves == [] && o.record.None?
            && (!Accepts(request) ==> o.locks == [])
  {
  }

  /**
   * A record is saved exactly when every check passed, and its saves run `Pending` then
   * `Success`, or `Pending` then `Failed`: no transfer ends with its record still pending,
   * and only a `Success` record is ever committed.
   */
  lemma RecordSavedOnlyWhenAccepted(request: Option<TransferRequest>, views: map<string, AccountView>,
                                    transactionId: string, now: Timestamp, faults: StorageFaults)
    ensures var o := Transfer(request, views, transactionId, now, faults);
            && (o.saves != [] <==> Decide(request, views).Accepted?)
            && (o.saves == [] || o.saves == [(transactionId, Pending), (transactionId, Success)]
                              || o.saves == [(transactionId, Pending), (transactionId, Failed)])
            && (o.record.Some? <==> o.saves == [(transactionId, Pending), (transactionId, Success)])
            && (o.record.Some? ==> o.record.value.status == Success)
  {
    var o := Transfer(request, views, transactionId, now, faults);
    match Decide(request, views)
    case Rejected(_) =>
    case Accepted(fromId, toId, amount) =>
      assert o.saves[0] == (transactionId, Pending);
  }

  /**
   * A successful transfer moves exactly the request's amount from its source to its
   * destination, records the two ids and the amount under `transactionId`, and answers with
   * a `SUCCESS` response naming that record, both accounts and the amount.
   */
  lemma SuccessfulTransferMovesAmount(request: Option<TransferRequest>, views: map<string, AccountView>,
                                      transactionId: string, now: Timestamp, faults: StorageFaults)
    requires Transfer(request, views, transactionId, now, faults).result.Ok?
    ensures Accepts(request) && FirstFault(faults).None?
    ensures var req := request.value;
            var fromId, toId, amount := req.fromAccountId.value, req.toAccountId.value, req.amount.value;
            var o := Transfer(request, views, transactionId, now, faults);
            && fromId in views && toId in views && fromId != toId
            && o.views.Keys == views.Keys
            && o.views[fromId].balance == views[fromId].balance - amount
            && o.views[toId].balance == views[toId].balance + amount
            && (forall id | id in views && id != fromId && id != toId :: o.views[id] == views[id])
            && o.record == Some(RecordView(transactionId, fromId, toId, amount, req.description, Success, now))
            && o.result.value.transactionId == Some(transactionId)
            && o.result.value.fromAccountId == Some(fromId) && o.result.value.toAccountId == Some(toId)
            && o.result.value.amount == Some(amount)
            && ParseStatus(o.result.value.status) == Some(Success)
  {
    var p := Decide(request, views);
    MovedChangesOnlyTwoBalances(views, p.fromId, p.toId, p.amount);
    SuccessResponseCarries(Some(transactionId), Some(p.fromId), Some(p.toId), Some(p.amount), Some(SuccessDefaultMessage), now);
  }

  /**
   * A storage failure in the try block makes the transfer fail with "Transfer failed: "
   * followed by the failure's message, wrapping the failure as its cause, and the rollback
   * leaves every balance as it was.
   */
  lemma FailedTransferRollsBack(request: Option<TransferRequest>, views: map<string, AccountView>,
                                transactionId: string, now: Timestamp, faults: StorageFaults)
    requires Decide(request, views).Accepted? && FirstFault(faults).Some?
    ensures var o := Transfer(request, views, transactionId, now, faults);
            var m := FirstFault(faults).value;
            && o.result == Err(InvalidTransfer(TransferFailedPrefix + m, Some(StorageFailure(m))))
            && o.views == views && o.record.None?
  {
  }

  /** No transfer creates or destroys money: the ledger's total is the same after it. */
  lemma TransferConservesMoney(request: Option<TransferRequest>, views: map<string, AccountView>,
                               transactionId: string, now: Timestamp, faults: StorageFaults)
    ensures Total(Transfer(request, views, transactionId, now, faults).views) == Total(views)
  {
    var p := Decide(request, views);
    if p.Accepted? && FirstFault(faults).None? {
      MoveConservesTotal(views, p.fromId, p.toId, p.amount);
    }
  }

  /** No transfer drives a balance below zero: a ledger without negative balances stays so. */
  lemma TransferKeepsBalancesNonNegative(request: Option<TransferRequest>, views: map<string, AccountView>,
                                         transactionId: string, now: Timestamp, faults: StorageFaults)
    requires forall id | id in views :: views[id].balance >= 0
    ensures var after := Transfer(request, views, transactionId, now, faults).views;
            after.Keys == views.Keys && forall id | id in after :: after[id].balance >= 0
  {
    var p := Decide(request, views);
    if p.Accepted? && FirstFault(faults).None? {
      MovedChangesOnlyTwoBalances(views, p.fromId, p.toId, p.amount);
    }
  }

  /**
   * The locks are taken in request order, source first: an accepted transfer locks the
   * source, then the destination, before anything else, and locks no other account.
   */
  lemma LocksInRequestOrder(request: Option<TransferRequest>, views: map<string, AccountView>,
                            transactionId: string, now: Timestamp, faults: StorageFaults)
    requires Accepts(request)
    ensures var o := Transfer(request, views, transactionId, now, faults);
            var fromId, toId := request.value.fromAccountId.value, request.value.toAccountId.value;
            && (o.locks != [] ==> o.locks[0] == fromId)
            && (forall i | 0 <= i < |o.locks| :: o.locks[i] == fromId || o.locks[i] == toId)
            && (Decide(request, views).Accepted? ==> o.locks[..2] == [fromId, toId])
  {
  }

  class TransferService {
    /** The `AccountService` the engine delegates row reads and balance writes to. */
    const accountService: AccountService
    /** The committed `transactions` rows, keyed by `transactionId`. */
    var transactions: map<string, Transaction>
    /** Every save of a transaction row inside the atomic scope, with the status it wrote, in order. */
    ghost var saveLog: seq<(string, TxStatus)>

    /** The account store the engine works on is valid. */
    ghost predicate Valid()
      reads accountService`accounts, accountService`views, accountService`rows, accountService.rows
    {
      accountService.Valid()
    }

    /** A transfer engine over `accountService` with no transfers recorded. */
    constructor (accountService: AccountService)
      requires accountService.Valid()
      ensures Valid() && this.accountService == accountService && transactions == map[] && saveLog == []
    {
      this.accountService := accountService;
      transactions := map[];
      saveLog := [];
    }

    /**
     * The part of `transferFunds` after validation (TransactionService.java:49-66): the two
     * locking reads in request order, then the funds, same-account and currency checks. The decision is
     * `DecideAccounts` over the ledger, and the locks taken are those of the reads that
     * found a row.
     */
    method CheckAccounts(fromId: string, toId: string, amount: Cents) returns (p: Precheck)
      requires accountService.Valid()
      modifies accountService`lockLog
      ensures p == DecideAccounts(fromId, toId, amount, accountService.views)
      ensures accountService.lockLog == old(accountService.lockLog) + RequestOrderLocks(fromId, toId, accountService.views.Keys)
    {
      var fromRead := accountService.GetAccountByIdWithLock(fromId);
      if fromRead.Err? {
        return Rejected(fromRead.error);
      }
      var toRead := accountService.GetAccountByIdWithLock(toId);
      if toRead.Err? {
        return Rejected(toRead.error);
      }
      var fromAccount, toAccount := fromRead.value, toRead.value;
      var shortfall := ValidateSufficientFunds(fromAccount, amount);
      if shortfall.Some? {
        return Rejected(shortfall.value);
      }
      if fromAccount.accountId == toAccount.accountId {
        return Rejected(InvalidTransfer(SameAccountMessage, None));
      }
      if fromAccount.currency.value != toAccount.currency.value {
        return Rejected(InvalidTransfer(CurrencyMismatchMessage(fromAccount.currency.value, toAccount.currency.value), None));
      }
      p := Accepted(fromAccount.accountId, toAccount.accountId, amount);
    }

    /**
     * `createTransactionRecord`: a new record under `transactionId` (the UUID the source
     * generates) for the two accounts, the amount and the description, saved as `Pending`
     * with both dates set by the persist hook.
     */
    method CreateTransactionRecord(fromAccountId: string, toAccountId: string, amount: Cents,
                                   description: Option<string>, transactionId: string, now: Timestamp)
      returns (t: Transaction)
      modifies this`transactions, this`saveLog
      ensures fresh(t) && transactions == old(transactions)[transactionId := t]
      ensures t.transactionId == transactionId && t.fromAccountId == fromAccountId && t.toAccountId == toAccountId
      ensures t.amount == amount && t.description == description
      ensures t.status == Some(Pending) && t.transactionDate == Some(now) && t.createdAt == Some(now)
      ensures saveLog == old(saveLog) + [(transactionId, Pending)]
    {
      t := new Transaction(transactionId, fromAccountId, toAccountId, amount, Some(Pending), description);
      t.OnCreate(now);
      transactions := transactions[transactionId := t];
      saveLog := saveLog + [(transactionId, Pending)];
    }

    /**
     * `transaction.setStatus(status)` then `transactionRepository.save(transaction)`: the
     * status is set on the managed record either way, and the save is logged unless it fails.
     */
    method SaveStatus(t: Transaction, status: TxStatus, fault: Option<string>) returns (err: Option<Error>)
      modifies t`status, this`saveLog
      ensures t.status == Some(status)
      ensures err == (if fault.None? then None else Some(StorageFailure(fault.value)))
      ensures saveLog == old(saveLog) + (if fault.None? then [(t.transactionId, status)] else [])
    {
      t.status := Some(status);
      if fault.Some? {
        return Some(StorageFailure(fault.value));
      }
      saveLog := saveLog + [(t.transactionId, status)];
      err := None;
    }
  
    /**
     * The debit and credit in `transferFunds` (TransactionService.java:75-78): debit the
     * source by `amount`, then credit the destination, stopping at the first storage failure. Neither update can be refused for the balance, because the
     * source holds the amount. A failed save still leaves its new balance on the managed row,
     * so a failure on the debit leaves only the source debited, and otherwise the ledger
     * shows the whole move.
     */
    method MoveBalances(fromId: string, toId: string, amount: Cents, now: Timestamp,
                        debitFault: Option<string>, creditFault: Option<string>)
      returns (err: Option<Error>)
      requires accountService.Valid()
      requires fromId in accountService.views && toId in accountService.views && fromId != toId
      requires amount > 0 && accountService.views[fromId].balance >= amount
      modifies accountService`lockLog, accountService`views, accountService.rows`balance, accountService.rows`updatedAt
      ensures accountService.Valid() && accountService.accounts == old(accountService.accounts)
      ensures err == if debitFault.Some? then Some(StorageFailure(debitFault.value))
                     else if creditFault.Some? then Some(StorageFailure(creditFault.value)) else None
      ensures accountService.lockLog == old(accountService.lockLog) + [fromId] + (if debitFault.None? then [toId] else [])
      ensures debitFault.Some? ==>
        accountService.views == WithBalance(old(accountService.views), fromId, old(accountService.views[fromId].balance) - amount)
      ensures debitFault.None? ==> accountService.views == Moved(old(accountService.views), fromId, toId, amount)
      ensures accountService.Stamps() ==
        if debitFault.Some? then old(accountService.Stamps())
        else if creditFault.Some? then old(accountService.Stamps())[fromId := Some(now)]
        else old(accountService.Stamps())[fromId := Some(now)][toId := Some(now)]
    {
      accountService.StoredRow(toId);
      err := accountService.UpdateAccountBalance(fromId, -amount, now, debitFault);
      if err.Some? {
        return;
      }
      err := accountService.UpdateAccountBalance(toId, amount, now, creditFault);
    }

    /**
     * The try block of `transferFunds` (TransactionService.java:71-82): the two balance
     * updates, then the record is marked `Success` and saved, stopping at the first storage
     * failure, which is returned for the catch block. The ledger is left as `MoveBalances`
     * leaves it; without a failure the record is saved as `Success`.
     */
    method TryTransfer(t: Transaction, fromId: string, toId: string, amount: Cents, now: Timestamp, faults: StorageFaults)
      returns (err: Option<Error>)
      requires accountService.Valid()
      requires fromId in accountService.views && toId in accountService.views && fromId != toId
      requires amount > 0 && accountService.views[fromId].balance >= amount
      modifies t`status, this`saveLog, accountService`lockLog, accountService`views, accountService.rows`balance, accountService.rows`updatedAt
      ensures accountService.Valid() && accountService.accounts == old(accountService.accounts)
      ensures err == (if FirstFault(faults).None? then None else Some(StorageFailure(FirstFault(faults).value)))
      ensures accountService.lockLog == old(accountService.lockLog) + [fromId] + (if faults.debit.None? then [toId] else [])
      ensures err.None? ==> t.status == Some(Success) && saveLog == old(saveLog) + [(t.transactionId, Success)]
      ensures err.Some? ==> saveLog == old(saveLog)
      ensures faults.debit.Some? ==>
        accountService.views == WithBalance(old(accountService.views), fromId, old(accountService.views[fromId].balance) - amount)
      ensures faults.debit.None? ==> accountService.views == Moved(old(accountService.views), fromId, toId, amount)
      ensures accountService.Stamps() ==
        if faults.debit.Some? then old(accountService.Stamps())
        else if faults.credit.Some? then old(accountService.Stamps())[fromId := Some(now)]
        else old(accountService.Stamps())[fromId := Some(now)][toId := Some(now)]
    {
      err := MoveBalances(fromId, toId, amount, now, faults.debit, faults.credit);
      if err.Some? {
        return;
      }
      err := SaveStatus(t, Success, faults.markSuccess);
    }
  
    /**
     * The catch block of `transferFunds` (TransactionService.java:94-102) and the rollback it
     * triggers: the record is marked `Failed` and saved, and the failure is rethrown as an
     * `InvalidTransfer` whose message is "Transfer failed: " plus the cause's message and whose
     * cause is the failure. The atomic scope then rolls back: both rows return to the balance
     * and `updatedAt` they had when the transfer began, and the record table to the committed
     * records, so the attempt leaves no record whatever status it reached.
     */
    method CatchAndRollBack(t: Transaction, cause: Error,
                            fromId: string, fromBalance: Cents, fromUpdatedAt: Option<Timestamp>,
                            toId: string, toBalance: Cents, toUpdatedAt: Option<Timestamp>,
                            committed: map<string, Transaction>)
      returns (r: Result<TransferResponse, Error>)
      requires cause.IsUpdateFailure()
      requires accountService.Valid() && fromId in accountService.accounts && toId in accountService.accounts && fromId != toId
      requires fromBalance >= 0 && toBalance >= 0 && fromUpdatedAt.Some? && toUpdatedAt.Some?
      modifies t`status, this`saveLog, this`transactions, accountService`views, accountService.rows`balance, accountService.rows`updatedAt
      ensures r == Err(InvalidTransfer(TransferFailedPrefix + cause.Message(), Some(cause)))
      ensures saveLog == old(saveLog) + [(t.transactionId, Failed)]
      ensures accountService.Valid() && accountService.accounts == old(accountService.accounts)
      ensures accountService.views ==
        WithBalance(WithBalance(old(accountService.views), fromId, fromBalance), toId, toBalance)
      ensures accountService.Stamps() == old(accountService.Stamps())[fromId := fromUpdatedAt][toId := toUpdatedAt]
      ensures transactions == committed
    {
      var _ := SaveStatus(t, Failed, None);
      accountService.RollbackRow(fromId, fromBalance, fromUpdatedAt);
      accountService.RollbackRow(toId, toBalance, toUpdatedAt);
      transactions := committed;
      r := Err(InvalidTransfer(TransferFailedPrefix + cause.Message(), Some(cause)));
    }

    /**
     * The try block of `transferFunds` and its catch (TransactionService.java:71-102), on a
     * record already saved as `Pending`. Without a storage failure the ledger shows the move,
     * the record is saved as `Success` and the success response names it. With one, the catch
     * block marks the record `Failed` and saves it, then rethrows the failure wrapped as
     * "Transfer failed: " plus its message; the atomic scope rolls back, so the ledger is as it
     * was and the record table is `committed` again.
     */
    method Attempt(t: Transaction, fromId: string, toId: string, amount: Cents, now: Timestamp, faults: StorageFaults,
                   committed: map<string, Transaction>)
      returns (r: Result<TransferResponse, Error>)
      requires accountService.Valid()
      requires fromId in accountService.views && toId in accountService.views && fromId != toId
      requires amount > 0 && accountService.views[fromId].balance >= amount
      modifies t`status, this`transactions, this`saveLog
      modifies accountService`lockLog, accountService`views, accountService.rows`balance, accountService.rows`updatedAt
      ensures accountService.Valid() && accountService.accounts == old(accountService.accounts)
      ensures accountService.lockLog == old(accountService.lockLog) + [fromId] + (if faults.debit.None? then [toId] else [])
      ensures FirstFault(faults).None? ==>
        && r == Ok(SuccessResponse(Some(t.transactionId), Some(fromId), Some(toId), Some(amount), Some(SuccessDefaultMessage), now))
        && accountService.views == Moved(old(accountService.views), fromId, toId, amount)
        && accountService.Stamps() == old(accountService.Stamps())[fromId := Some(now)][toId := Some(now)]
        && t.status == Some(Success) && transactions == old(transactions)
        && saveLog == old(saveLog) + [(t.transactionId, Success)]
      ensures FirstFault(faults).Some? ==>
        && r == Err(InvalidTransfer(TransferFailedPrefix + FirstFault(faults).value, Some(StorageFailure(FirstFault(faults).value))))
        && accountService.views == old(accountService.views) && transactions == committed
        && accountService.Stamps() == old(accountService.Stamps())
        && saveLog == old(saveLog) + [(t.transactionId, Failed)]
    {
      accountService.StoredRow(fromId);
      accountService.StoredRow(toId);
      var fromRow, toRow := accountService.accounts[fromId], accountService.accounts[toId];
      var fromBalance, fromUpdatedAt := fromRow.balance.value, fromRow.updatedAt;
      var toBalance, toUpdatedAt := toRow.balance.value, toRow.updatedAt;
      ghost var before := accountService.views;
      var err := TryTransfer(t, fromId, toId, amount, now, faults);
      if err.None? {
        return Ok(SuccessResponse(Some(t.transactionId), Some(fromId), Some(toId), Some(amount), Some(SuccessDefaultMessage), now));
      }
      r := CatchAndRollBack(t, err.value, fromId, fromBalance, fromUpdatedAt, toId, toBalance, toUpdatedAt, committed);
      RollbackRestores(before, fromId, toId, amount);
    }

    /**
     * The record and the try block of `transferFunds` (TransactionService.java:68-103), for a
     * transfer the checks accepted: the `Pending` record is saved, then the try block runs,
     * see `Attempt`. Without a storage failure the
     * record is committed as `Success`; with one, the record table is as it was.
     */
    method Execute(fromId: string, toId: string, amount: Cents, description: Option<string>,
                   transactionId: string, now: Timestamp, faults: StorageFaults)
      returns (r: Result<TransferResponse, Error>)
      requires Valid() && transactionId !in transactions
      requires fromId in accountService.views && toId in accountService.views && fromId != toId
      requires amount > 0 && accountService.views[fromId].balance >= amount
      modifies this`transactions, this`saveLog
      modifies accountService`lockLog, accountService`views, accountService.rows`balance, accountService.rows`updatedAt
      ensures Valid() && accountService.accounts == old(accountService.accounts)
      ensures var o := Settle(fromId, toId, amount, description, old(accountService.views), transactionId, now, faults);
        && r == o.result && accountService.views == o.views
        && accountService.lockLog == old(accountService.lockLog) + o.locks && saveLog == old(saveLog) + o.saves
        && (o.record.None? ==> transactions == old(transactions))
        && (o.record.Some? ==>
              && transactionId in transactions && fresh(transactions[transactionId])
              && transactions == old(transactions)[transactionId := transactions[transactionId]]
              && Shows(transactions[transactionId], o.record.value))
      ensures accountService.Stamps() ==
        if FirstFault(faults).None? then old(accountService.Stamps())[fromId := Some(now)][toId := Some(now)]
        else old(accountService.Stamps())
    {
      var committed := transactions;
      var t := CreateTransactionRecord(fromId, toId, amount, description, transactionId, now);
      ghost var settled := RecordView(transactionId, fromId, toId, amount, description, Success, now);
      assert Shows(t, settled.(status := Pending));
      r := Attempt(t, fromId, toId, amount, now, faults, committed);
      if FirstFault(faults).None? {
        assert Shows(t, settled);
      }
    }

    /**
     * `transferFunds` (TransactionService.java:42-104), with the null request refused by
     * validation (see the findings). A transfer the checks reject returns their error, having
     * taken only the locks of the reads that ran, and changes no balance and no record. An
     * accepted one runs as `Execute` describes: on success the amount has moved from the source
     * to the destination and a `Success` record is committed under `transactionId` (the UUID
     * the source generates); on a storage failure everything is rolled back.
     */
    method TransferFunds(request: Option<TransferRequest>, transactionId: string, now: Timestamp, faults: StorageFaults)
      returns (r: Result<TransferResponse, Error>)
      requires Valid() && transactionId !in transactions
      modifies this`transactions, this`saveLog
      modifies accountService`lockLog, accountService`views, accountService.rows`balance, accountService.rows`updatedAt
      ensures Valid() && accountService.accounts == old(accountService.accounts)
      ensures var o := Transfer(request, old(accountService.views), transactionId, now, faults);
        && r == o.result && accountService.views == o.views
        && accountService.lockLog == old(accountService.lockLog) + o.locks && saveLog == old(saveLog) + o.saves
        && (o.record.None? ==> transactions == old(transactions))
        && (o.record.Some? ==>
              && transactionId in transactions && fresh(transactions[transactionId])
              && transactions == old(transactions)[transactionId := transactions[transactionId]]
              && Shows(transactions[transactionId], o.record.value))
      ensures var p := Decide(request, old(accountService.views));
        accountService.Stamps() ==
          if p.Accepted? && FirstFault(faults).None? then old(accountService.Stamps())[p.fromId := Some(now)][p.toId := Some(now)]
          else old(accountService.Stamps())
    {
      var invalid := ValidateTransferRequest(request);
      if invalid.Some? {
        return Err(invalid.value);
      }
      var req := request.value;
      var p := CheckAccounts(req.fromAccountId.value, req.toAccountId.value, req.amount.value);
      if p.Rejected? {
        return Err(p.error);
      }
      r := Execute(p.fromId, p.toId, p.amount, req.description, transactionId, now, faults);
    }
  }
}
