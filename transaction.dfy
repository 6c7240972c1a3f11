/** The `transactions` entity: the audit record of one transfer attempt. */
module TransactionModel {
  import opened Common

  /** `TransactionStatus`. */
  datatype TxStatus = Success | Failed | Pending

  /** The column value `@Enumerated(EnumType.STRING)` writes for a status. */
  function StatusName(s: TxStatus): string {
    match s
    case Success => "SUCCESS"
    case Failed => "FAILED"
    case Pending => "PENDING"
  }

  /** Reading a status column back; any other text is not a status. */
  function ParseStatus(name: string): (r: Option<TxStatus>)
    ensures r.Some? ==> StatusName(r.value) == name
  {
    if name == "SUCCESS" then Some(Success)
    else if name == "FAILED" then Some(Failed)
    else if name == "PENDING" then Some(Pending)
    else None
  }

  /** Writing a status and reading it back gives the same status, so distinct statuses have distinct names. */
  lemma ParseStatusName(s: TxStatus)
    ensures ParseStatus(StatusName(s)) == Some(s)
  {
  }

  class Transaction {
    var transactionId: string
    var fromAccountId: string
    var toAccountId: string
    var amount: Cents
    var status: Option<TxStatus>
    var transactionDate: Option<Timestamp>
    var description: Option<string>
    var createdAt: Option<Timestamp>

    /** `Transaction.builder()...build()`: the given fields, no dates until the first persist. */
    constructor (transactionId: string, fromAccountId: string, toAccountId: string, amount: Cents,
                 status: Option<TxStatus>, description: Option<string>)
      ensures this.transactionId == transactionId
      ensures this.fromAccountId == fromAccountId && this.toAccountId == toAccountId
      ensures this.amount == amount && this.status == status && this.description == description
      ensures transactionDate == None && createdAt == None
    {
      this.transactionId := transactionId;
      this.fromAccountId := fromAccountId;
      this.toAccountId := toAccountId;
      this.amount := amount;
      this.status := status;
      this.description := description;
      transactionDate := None;
      createdAt := None;
    }

    /**
     * `@PrePersist onCreate`: `createdAt` is always set to the clock reading, a missing
     * `transactionDate` is set to it and a given one is kept, a null status becomes
     * `Pending` and a given one is kept; nothing else changes.
     */
    method OnCreate(now: Timestamp)
      modifies this`createdAt, this`transactionDate, this`status
      ensures createdAt == Some(now)
      ensures transactionDate == if old(transactionDate).None? then Some(now) else old(transactionDate)
      ensures status == if old(status).None? then Some(Pending) else old(status)
      ensures status.Some? && transactionDate.Some?
    {
      createdAt := Some(now);
      if transactionDate.None? {
        transactionDate := Some(now);
      }
      if status.None? {
        status := Some(Pending);
      }
    }
  }
}
