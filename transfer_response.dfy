/** The result body returned for a transfer, and its two factory functions. */
module TransferResponseModel {
  import opened Common
  import opened TransactionModel

  /** `TransferResponse`; the amount is kept as cents rather than as its decimal text. */
  datatype TransferResponse = TransferResponse(
    transactionId: Option<string>,
    status: string,
    message: string,
    timestamp: Timestamp,
    fromAccountId: Option<string>,
    toAccountId: Option<string>,
    amount: Option<Cents>)

  const SuccessDefaultMessage: string := "Transfer completed successfully"
  const FailureDefaultMessage: string := "Transfer failed"

  /** `TransferResponse.success`, stamped at `now`; see `SuccessResponseCarries`. */
  function SuccessResponse(transactionId: Option<string>, fromAccountId: Option<string>,
                           toAccountId: Option<string>, amount: Option<Cents>,
                           message: Option<string>, now: Timestamp): TransferResponse
  {
    TransferResponse(transactionId, StatusName(Success),
                     if message.Some? then message.value else SuccessDefaultMessage,
                     now, fromAccountId, toAccountId, amount)
  }

  /** `TransferResponse.failure`, stamped at `now`; see `FailureResponseCarries`. */
  function FailureResponse(message: Option<string>, now: Timestamp): TransferResponse
  {
    TransferResponse(None, StatusName(Failed),
                     if message.Some? then message.value else FailureDefaultMessage,
                     now, None, None, None)
  }

  /**
   * `success`: the status reads back as `Success`, the identifiers and the amount pass
   * through unchanged, and a null message is replaced by the default text.
   */
  lemma SuccessResponseCarries(transactionId: Option<string>, fromAccountId: Option<string>,
                               toAccountId: Option<string>, amount: Option<Cents>,
                               message: Option<string>, now: Timestamp)
    ensures var r := SuccessResponse(transactionId, fromAccountId, toAccountId, amount, message, now);
            && ParseStatus(r.status) == Some(Success)
            && r.transactionId == transactionId && r.fromAccountId == fromAccountId
            && r.toAccountId == toAccountId && r.amount == amount
            && r.message == (if message.Some? then message.value else SuccessDefaultMessage)
            && r.timestamp == now
  {
    ParseStatusName(Success);
  }

  /**
   * `failure`: the status reads back as `Failed`, no transaction, account or amount is
   * reported, and a null message is replaced by the default text.
   */
  lemma FailureResponseCarries(message: Option<string>, now: Timestamp)
    ensures var r := FailureResponse(message, now);
            && ParseStatus(r.status) == Some(Failed)
            && r.transactionId.None? && r.fromAccountId.None? && r.toAccountId.None? && r.amount.None?
            && r.message == (if message.Some? then message.value else FailureDefaultMessage)
            && r.timestamp == now
  {
    ParseStatusName(Failed);
  }
}
