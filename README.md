# bpts transfer engine — a Dafny model

This project models the core of the bpts fund-transfer service: moving money between two
ledger accounts so that no money is created or destroyed and no account goes negative. A
successful transfer commits a SUCCESS transaction record; a transfer that fails after it was
accepted rolls back everything, its PENDING record and the FAILED status written for it
included.

The model covers:

- `TransferService.transferFunds` and its private helpers `validateTransferRequest`,
  `validateSufficientFunds` and `createTransactionRecord`;
- `AccountService`: `getAccountById`, `getAccountByIdWithLock`, `accountExists`,
  `updateAccountBalance` and `createAccount`;
- the entities `Account`, `Transaction` (with its status enum), `TransferRequest` and
  `TransferResponse`.

How the modules are laid out:

- `Account` and `Transaction` are JPA entities that the service updates in place, so they are
  Dafny classes.
- `AccountService` is a class over a `map<string, Account>` of stored rows. A ghost `views` map
  gives each row's balance and currency, and a ghost `lockLog` records every pessimistic-lock
  read in order.
- `TransferService` is a class over a `map<string, Transaction>` of committed records. A ghost
  `saveLog` records every `TransactionRepository.save` that completes, together with the status
  it wrote.
- `TransferRequest` and `TransferResponse` are request and response values, so they are
  datatypes.

A whole transfer is also written as one pure function, `TransferServiceModel.Transfer`. It
maps a request, the ledger, the transaction id, the clock and the storage faults to an
`Outcome`:

- the result;
- the ledger afterwards;
- the locks taken;
- the record saves;
- the committed record.

The lemmas about money, locks and records are proved about `Transfer`. The postcondition of
`TransferService.TransferFunds` ties the method's new state to `Transfer` on the old state.

Representation choices:

- Money is a whole number of cents (`Cents = int`).
- The clock is a `now: Timestamp` parameter.
- The random UUIDs are parameters (`transactionId`, `newId`) that must not already be in use.
- Repository failures are a `StorageFaults` parameter. It names which of the three saves inside
  the `try` block fails (the debit, the credit, the SUCCESS status) and with which message.

A failure inside the `try` block is handled as the annotation-driven transaction boundary
handles it. `transferFunds` runs as a single `@Transactional` scope (`AccountService` joins it),
and the catch block rethrows. So the scope rolls back:

- both balance rows return to their values before the transfer, including `updatedAt`;
- the PENDING record, and the FAILED status written for it, are not committed.

The `saveLog` still shows the FAILED save as having happened.

## Model

| member | source | states |
|---|---|---|
| AccountModel.Account.constructor | src/main/java/com/bpts/model/Account.java:21-35 | the builder sets id, balance and currency; both timestamps start unset |
| AccountModel.Account.OnCreate | src/main/java/com/bpts/model/Account.java:37-47 | `@PrePersist` stamps both timestamps, defaults a null balance to 0 and a null or empty currency to USD, keeps the id, and leaves every column filled |
| AccountModel.Account.OnUpdate | src/main/java/com/bpts/model/Account.java:49-52 | `@PreUpdate` moves `updatedAt` to now and never touches `createdAt` |
| TransactionModel.ParseStatus | src/main/java/com/bpts/model/Transaction.java:71-75 | any parsed status has exactly the given name |
| TransactionModel.ParseStatusName | src/main/java/com/bpts/model/Transaction.java:71-75 | the string form of every status (SUCCESS, FAILED, PENDING) parses back to that status |
| TransactionModel.Transaction.constructor | src/main/java/com/bpts/model/Transaction.java:26-58 | the builder sets ids, amount, status and description; both dates start unset |
| TransactionModel.Transaction.OnCreate | src/main/java/com/bpts/model/Transaction.java:60-69 | `@PrePersist` stamps `createdAt`, fills an unset transaction date and an unset status (PENDING), and leaves status and date set |
| TransferRequestModel.TransferRequest.IsValidTransfer | src/main/java/com/bpts/model/TransferRequest.java:62-66 | no contract of its own; `ValidTransferIff`, `NullSourceIsNotValid` and `NullDestinationIsNotValid` state it |
| TransferRequestModel.NullSourceIsNotValid | src/main/java/com/bpts/model/TransferRequest.java:62-66 | a request without a source id is never a valid transfer |
| TransferRequestModel.NullDestinationIsNotValid | src/main/java/com/bpts/model/TransferRequest.java:62-66 | a request without a destination id is never a valid transfer |
| TransferRequestModel.ValidTransferIff | src/main/java/com/bpts/model/TransferRequest.java:62-66 | `isValidTransfer` holds exactly when both ids are present and differ |
| TransferRequestModel.MatchesIdPattern | src/main/java/com/bpts/model/TransferRequest.java:20-31 | no contract of its own: 36 characters from `[a-fA-F0-9-]`; `PatternIdIsNotBlank` states what it implies |
| TransferRequestModel.SatisfiesConstraints | src/main/java/com/bpts/model/TransferRequest.java:20-41 | no contract of its own: both ids `@NotBlank` and matching the pattern, the amount present and at least one cent; `ConstrainedRequestValidation` relates it to the service's own check |
| TransferRequestModel.PatternIdIsNotBlank | src/main/java/com/bpts/model/TransferRequest.java:20-31 | an id that matches the 36-character hex-and-dash pattern is never blank, so the declarative constraints imply the `@NotBlank` ones |
| JavaStrings.TrimStartDropsLeading | src/main/java/com/bpts/service/TransactionService.java:123-129 | `trim` drops only a prefix of characters at or below U+0020, and stops at the first character above it |
| JavaStrings.TrimEndDropsTrailing | src/main/java/com/bpts/service/TransactionService.java:123-129 | `trim` drops only a suffix of characters at or below U+0020, and stops at the last character above it |
| JavaStrings.BlankIffAllTrimmable | src/main/java/com/bpts/service/TransactionService.java:123-129 | `s.trim().isEmpty()` holds exactly when every character of `s` is at or below U+0020 |
| TransferResponseModel.SuccessResponse | src/main/java/com/bpts/model/TransferResponse.java:66-77 | no contract of its own; `SuccessResponseCarries` states it |
| TransferResponseModel.FailureResponse | src/main/java/com/bpts/model/TransferResponse.java:79-85 | no contract of its own; `FailureResponseCarries` states it |
| TransferResponseModel.SuccessResponseCarries | src/main/java/com/bpts/model/TransferResponse.java:66-77 | `success` has status SUCCESS, passes the ids and amount through, uses the message or else the default, and stamps the time |
| TransferResponseModel.FailureResponseCarries | src/main/java/com/bpts/model/TransferResponse.java:79-85 | `failure` has status FAILED, no ids or amount, and the message or else "Transfer failed" |
| Ledger.TotalAfterUpdate | src/main/java/com/bpts/service/AccountService.java:79-80 | setting one row's balance changes the ledger total by exactly the difference |
| Ledger.MovedChangesOnlyTwoBalances | src/main/java/com/bpts/service/TransactionService.java:75-78 | the debit and the credit lower the source by the amount, raise the destination by it, and leave every other row and both currencies alone |
| Ledger.MoveConservesTotal | src/main/java/com/bpts/service/TransactionService.java:75-78 | the debit and the credit together leave the sum of all balances unchanged |
| Ledger.RollbackRestores | src/main/java/com/bpts/service/TransactionService.java:94-103 | restoring the two rows' old balances after a partial or a full move gives back the ledger exactly |
| AccountServiceModel.AccountService.constructor | src/main/java/com/bpts/service/AccountService.java:17-19 | an empty store that satisfies the row invariant, holding no account objects |
| AccountServiceModel.AccountService.GetAccountById | src/main/java/com/bpts/service/AccountService.java:29-33 | returns the row stored under the id, whose own id is that id; otherwise fails with AccountNotFound for that id |
| AccountServiceModel.AccountService.AccountExists | src/main/java/com/bpts/service/AccountService.java:56-58 | true exactly when `getAccountById` would succeed, and false exactly when it would fail with AccountNotFound |
| AccountServiceModel.AccountService.GetAccountByIdWithLock | src/main/java/com/bpts/service/AccountService.java:43-47 | the same answer as the plain read, and the lock log grows by the id exactly when the row exists |
| AccountServiceModel.AccountService.UpdateAccountBalance | src/main/java/com/bpts/service/AccountService.java:69-82 | a missing id fails with AccountNotFound and takes no lock; otherwise the row is locked; a result below zero (`UpdateRefused`) fails with IllegalState and changes no balance and no `updatedAt`; otherwise only that row's balance becomes old plus delta (zero is allowed), and only its `updatedAt` moves to now, unless the save fails |
| AccountServiceModel.AccountService.SaveBalance | src/main/java/com/bpts/service/AccountService.java:79-80 | sets the one balance and reports a storage failure when the save fails; only that row's `updatedAt` moves to now, and only when the save succeeds |
| AccountServiceModel.AccountService.RollbackRow | src/main/java/com/bpts/service/TransactionService.java:41-41 | rolling back the scope puts one row's balance and `updatedAt` back, and every other row keeps its balance and `updatedAt` |
| AccountServiceModel.AccountService.CreateAccount | src/main/java/com/bpts/service/AccountService.java:92-112 | a null balance means 0; a negative one fails with IllegalArgument and stores nothing; otherwise a fresh row is stored under the new id with that balance and the currency (USD when null or empty), stamped now, and existing rows keep their balance, currency and `updatedAt`; the set of account objects the store holds grows by exactly the new one, or stays the same on refusal |
| AccountModel.Account.HasSufficientBalance | src/main/java/com/bpts/model/Account.java:57-59 | no contract of its own; `SufficientIffDebitAccepted` states it: on a stored row it holds exactly when the balance update would accept debiting the amount, so an equal balance is enough |
| AccountServiceModel.SufficientIffDebitAccepted | src/main/java/com/bpts/model/Account.java:57-59 | for any stored row, `hasSufficientBalance(amount)` holds exactly when `updateAccountBalance` does not refuse a delta of minus that amount (`UpdateRefused` over the store's ledger) |
| TransferServiceModel.ValidateTransferRequest | src/main/java/com/bpts/service/TransactionService.java:109-130 | passes exactly the requests that are present, name two different ids, carry a positive amount and have two non-blank ids; every refusal is an InvalidTransfer without a cause |
| TransferServiceModel.NullRequestRejected | src/main/java/com/bpts/service/TransactionService.java:110-112 | a null request is refused with "Transfer request cannot be null" |
| TransferServiceModel.NullIdReportedAsNotDifferent | src/main/java/com/bpts/service/TransactionService.java:114-116 | a missing id is reported as "Source and destination accounts must be different", because `isValidTransfer` runs before the id checks |
| TransferServiceModel.SelfTransferRejected | src/main/java/com/bpts/service/TransactionService.java:114-116 | a transfer from an account to itself is refused with the must-be-different message |
| TransferServiceModel.NonPositiveAmountRejected | src/main/java/com/bpts/service/TransactionService.java:118-120 | a missing, zero or negative amount is refused with "Transfer amount must be greater than zero" |
| TransferServiceModel.BlankSourceRejected | src/main/java/com/bpts/service/TransactionService.java:123-125 | a blank source id is refused with "Source account ID is required" |
| TransferServiceModel.BlankDestinationRejected | src/main/java/com/bpts/service/TransactionService.java:127-129 | a blank destination id after a non-blank source is refused with "Destination account ID is required" |
| TransferServiceModel.ConstrainedRequestValidation | src/main/java/com/bpts/service/TransactionService.java:109-130 | for a request that meets the bean-validation constraints, the service check passes exactly when the two ids differ |
| TransferServiceModel.EntryAsWritten | src/main/java/com/bpts/service/TransactionService.java:43-47 | as written, a null request fails with NullPointerException in the log line, and no other request does; any other request gets the validation result |
| TransferServiceModel.NullRequestNeverReachesNullCheck | src/main/java/com/bpts/service/TransactionService.java:43-44 | for a null request the code as written throws NullPointerException, not the intended InvalidTransfer |
| TransferServiceModel.Decide | src/main/java/com/bpts/service/TransactionService.java:47-66 | accepts exactly the valid requests whose two accounts exist, whose source covers the amount and whose currencies match; an invalid request gets the validation error |
| TransferServiceModel.DecideAccounts | src/main/java/com/bpts/service/TransactionService.java:50-66 | the account-level checks accept exactly when both rows exist, the source covers the amount, the two ids differ and the currencies match; an accepted transfer is returned unchanged; a missing source is reported first |
| TransferServiceModel.MissingSourceReportedFirst | src/main/java/com/bpts/service/TransactionService.java:50-50 | a missing source account gives AccountNotFound for the source |
| TransferServiceModel.MissingDestinationReported | src/main/java/com/bpts/service/TransactionService.java:51-51 | a present source and a missing destination give AccountNotFound for the destination |
| TransferServiceModel.ValidateSufficientFunds | src/main/java/com/bpts/service/TransactionService.java:135-143 | no contract of its own; `ShortfallIffDebitRefused` states it: it fails exactly when the debit would be refused, with InsufficientFunds carrying the id, the balance and the amount |
| TransferServiceModel.ShortfallIffDebitRefused | src/main/java/com/bpts/service/TransactionService.java:135-143 | on a stored row, `validateSufficientFunds` fails exactly when `updateAccountBalance` would refuse to debit the amount (so an equal balance is enough), and the failure is InsufficientFunds with the row's id, its balance and the amount |
| TransferServiceModel.InsufficientFundsWinsOverCurrency | src/main/java/com/bpts/service/TransactionService.java:54-66 | when the source balance is short, InsufficientFunds is reported even if the currencies also differ |
| TransferServiceModel.CurrencyMismatchRejected | src/main/java/com/bpts/service/TransactionService.java:62-66 | funded accounts in different currencies are refused with the currency-mismatch InvalidTransfer naming both codes |
| TransferServiceModel.SameAccountCheckUnreachable | src/main/java/com/bpts/service/TransactionService.java:57-59 | the "Source and destination accounts cannot be the same" rejection is never produced |
| TransferServiceModel.AcceptedUpdatesNeverOverdraw | src/main/java/com/bpts/service/TransactionService.java:54-78 | on an accepted transfer, neither balance update can hit the negative-balance refusal |
| TransferServiceModel.FirstFault | src/main/java/com/bpts/service/TransactionService.java:71-82 | no failure exactly when all three saves succeed; a failing debit is the one reported |
| TransferServiceModel.Settle | src/main/java/com/bpts/service/TransactionService.java:69-103 | no contract of its own: an accepted transfer from the PENDING save on; `TransferService.Execute` is proved equal to it |
| TransferServiceModel.Transfer | src/main/java/com/bpts/service/TransactionService.java:42-104 | no contract of its own: the whole transfer as a value; `TransferService.TransferFunds` is proved equal to it, and the lemmas below state its properties; a null request takes the corrected path from "## Findings" (InvalidTransfer "Transfer request cannot be null"), while `EntryAsWritten` models the NullPointerException the code as written throws |
| TransferServiceModel.RejectedTransferChangesNothing | src/main/java/com/bpts/service/TransactionService.java:47-66 | a refused transfer returns the refusal, takes no lock when the request is malformed, leaves every balance as it was, saves no record and commits nothing |
| TransferServiceModel.RecordSavedOnlyWhenAccepted | src/main/java/com/bpts/service/TransactionService.java:69-103 | a record is saved exactly when the checks pass; the saves are PENDING then SUCCESS or PENDING then FAILED; a record is committed exactly after PENDING then SUCCESS, with status SUCCESS |
| TransferServiceModel.SuccessfulTransferMovesAmount | src/main/java/com/bpts/service/TransactionService.java:71-92 | a successful transfer had a valid request and no fault, moves exactly the amount, leaves other rows alone, commits the SUCCESS record, and answers with status SUCCESS, the record's id, both account ids and the amount |
| TransferServiceModel.FailedTransferRollsBack | src/main/java/com/bpts/service/TransactionService.java:94-103 | a failed save gives "Transfer failed: " plus the cause's message with the cause wrapped, and rolls the ledger and the record back |
| TransferServiceModel.TransferConservesMoney | src/main/java/com/bpts/service/TransactionService.java:42-104 | whatever the request, the ledger and the faults, the sum of all balances is the same afterwards |
| TransferServiceModel.TransferKeepsBalancesNonNegative | src/main/java/com/bpts/service/TransactionService.java:54-78 | from a ledger with no negative balance, no transfer produces one |
| TransferServiceModel.LocksTaken | src/main/java/com/bpts/service/TransactionService.java:47-51 | no contract of its own; `LocksInRequestOrder` and `RejectedTransferChangesNothing` state it: no lock for a request validation refuses, otherwise the two reads' locks in request order |
| TransferServiceModel.RequestOrderLocks | src/main/java/com/bpts/service/TransactionService.java:50-51 | no contract of its own; `TransferService.CheckAccounts` states it: the lock log grows by the source's lock, then the destination's only when the source exists |
| TransferServiceModel.LocksInRequestOrder | src/main/java/com/bpts/service/TransactionService.java:50-51 | a valid request locks only its two accounts, the source first; an accepted one locks source then destination, as the request orders them |
| TransferServiceModel.TransferService.constructor | src/main/java/com/bpts/service/TransactionService.java:21-27 | a service over a valid account store, with no records |
| TransferServiceModel.TransferService.CheckAccounts | src/main/java/com/bpts/service/TransactionService.java:50-66 | the locked reads and checks give exactly `DecideAccounts`, and the lock log grows by exactly the request-order locks |
| TransferServiceModel.TransferService.CreateTransactionRecord | src/main/java/com/bpts/service/TransactionService.java:148-163 | a fresh PENDING record with the ids, amount and description, dated now, is stored under the new id and its save is logged |
| TransferServiceModel.TransferService.SaveStatus | src/main/java/com/bpts/service/TransactionService.java:81-82 | the status is set; the save is logged, or a storage failure is reported |
| TransferServiceModel.TransferService.MoveBalances | src/main/java/com/bpts/service/TransactionService.java:75-78 | without a debit fault both rows are locked and the ledger becomes `Moved`; with one, only the source is locked and debited and the error is reported; `updatedAt` moves to now on exactly the rows whose save succeeded |
| TransferServiceModel.TransferService.TryTransfer | src/main/java/com/bpts/service/TransactionService.java:71-92 | the try block fails exactly with the first fault; without one the record is saved as SUCCESS; balances and `updatedAt` are left as the updates that ran set them |
| TransferServiceModel.TransferService.CatchAndRollBack | src/main/java/com/bpts/service/TransactionService.java:94-103 | logs the FAILED save, wraps the cause in "Transfer failed: ...", puts both rows' balance and `updatedAt` back to the snapshots, and restores the committed records |
| TransferServiceModel.TransferService.Attempt | src/main/java/com/bpts/service/TransactionService.java:71-103 | the try/catch either completes the move with SUCCESS, stamping both rows now, or returns the wrapped failure with the ledger, every `updatedAt` and the records as they were |
| TransferServiceModel.TransferService.Execute | src/main/java/com/bpts/service/TransactionService.java:69-103 | from record creation on, the result, ledger, locks, saves and committed record are exactly those of `Settle` on the old ledger; both rows' `updatedAt` move to now on success and no `updatedAt` changes otherwise |
| TransferServiceModel.TransferService.TransferFunds | src/main/java/com/bpts/service/TransactionService.java:42-104 | the result, ledger, locks, saves and committed record are exactly those of `Transfer` on the old ledger, so every lemma about `Transfer` holds of the method; only a successful transfer changes `updatedAt`, on its two rows; a null request takes the corrected path from "## Findings" (InvalidTransfer), not the NullPointerException of lines 43-44, which `EntryAsWritten` models |

## Left out

- TransferServiceModel.TransferConservesMoney: proved only for amounts that are whole cents. The source does not enforce that. `TransferRequest.amount` (src/main/java/com/bpts/model/TransferRequest.java:40-50) has `@DecimalMin("0.01")` but no `@Digits` constraint, and `validateTransferRequest` (src/main/java/com/bpts/service/TransactionService.java:118) only tests that the amount is above zero. The balance columns are `precision = 19, scale = 2`, so an amount such as 0.015 reaches the two `updateAccountBalance` calls as it is, and each leg's new balance is then rounded to two places on its own (or rejected, depending on the database). Two legs rounded separately can create or lose a cent: with half-up rounding, moving 0.015 from 1.00 to 0.00 leaves 0.99 and 0.02. The model, with `Cents = int`, cannot express such an amount.
- TransferServiceModel.TransferKeepsBalancesNonNegative: also proved for whole-cent amounts only. A sub-cent amount passes the funds check against the unrounded balance, and the rounded result of a value that is not negative is still not negative. Whether the database rounds or rejects such a value is not modelled.
- TransferResponseModel.SuccessResponse: the response's amount is kept as cents, not as the `BigDecimal.toString()` text the source puts there.
- Column lengths (36-character ids, 3-letter currency, 500-character description, 20-character status) are not enforced by the model's stores.
- A failure of the PENDING insert, of the FAILED save inside the catch block, or of the commit itself is not modelled. Only the three saves inside the `try` block can fail.
- The IllegalState and AccountNotFound paths of `updateAccountBalance` inside the `try` block are unreachable after the checks (`AcceptedUpdatesNeverOverdraw`), so the catch path is taken only for storage failures.
- Concurrency is not modelled. Locks are a ghost log of `PESSIMISTIC_WRITE` reads, and blocking, lock timeouts and `READ_COMMITTED` isolation are outside the model.
- Logging, `UUID.randomUUID()` and `LocalDateTime.now()` are not modelled; ids and the clock are parameters.
- The FAILED record is not committed on the failure path, because the rollback discards it. A requirement that it survive the rollback is a change of design, not this code, and is not modelled.
- Acquiring the two locks in a canonical order, to avoid deadlock, is not what the code does. The model locks in request order (`LocksInRequestOrder`).
- The code checks funds before currency, and the model follows the code (`InsufficientFundsWinsOverCurrency`), not a currency-first order.
- `TransferResponse.failure` is not called by the transfer path. It is modelled (`FailureResponseCarries`) but used by nothing else.
- `AccountService.getAllAccounts`, the controllers, the global exception handler and the repositories' query methods are not part of this model.
- TransferServiceModel.TransferService.Valid: the service invariant covers the account store only. It does not state that the committed records are well formed; each call's postcondition describes the record it commits.

## Findings

| source | as written | input that shows it | evidently intended | confidence | as-written member | corrected member |
|---|---|---|---|---|---|---|
| src/main/java/com/bpts/service/TransactionService.java:43-44 | the log line calls `request.getFromAccountId()` before `validateTransferRequest`'s null check | a null request: it throws NullPointerException instead of InvalidTransfer("Transfer request cannot be null") | a null request is refused by the null check at lines 110-112 | high, not executed | TransferServiceModel.EntryAsWritten | TransferServiceModel.ValidateTransferRequest |
