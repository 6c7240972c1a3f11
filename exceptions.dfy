/** The exceptions the core throws, as values. */
module Exceptions {
  import opened Common

  /**
   * One constructor per exception class the core raises:
   * `InvalidTransferException` (with its optional cause), `AccountNotFoundException`,
   * `InsufficientFundsException`, `IllegalStateException`, `IllegalArgumentException`,
   * a storage failure raised by a repository `save`, and a `NullPointerException`.
   */
  datatype Error =
    | InvalidTransfer(message: string, cause: Option<Error>)
    | AccountNotFound(accountId: string)
    | InsufficientFunds(accountId: string, available: Cents, requested: Cents)
    | IllegalState(message: string)
    | IllegalArgument(message: string)
    | StorageFailure(message: string)
    | NullPointer
  {
    /** The exceptions a balance update or a record save can raise inside the transfer's try block. */
    predicate IsUpdateFailure() {
      AccountNotFound? || IllegalState? || StorageFailure?
    }

    /** `getMessage()` of an exception that can be wrapped as the cause of a failed transfer. */
    function Message(): string
      requires IsUpdateFailure()
    {
      match this
      case AccountNotFound(id) => "Account " + id + ": Account not found"
      case IllegalState(m) => m
      case StorageFailure(m) => m
    }
  }
}
